/** The blend rule of one pixel: the class with the largest weight wins, and a dated pixel takes the
    weighted mean or the median of its dated inputs. Exact reals stand for the 32-bit floats. */
module SnowBlend {
  import opened Reals
  import opened SnowBytes

  datatype Input = Input(pair: Pair, weight: real)

  datatype Class = DatedClass | FullClass | NoneClass | MissingClass

  predicate Holds(c: Class, p: Pair) {
    match c
    case DatedClass => p.onset <= LAST_STEP
    case FullClass => p.onset == FULL
    case NoneClass => p.onset == NO_SNOW
    case MissingClass => p.onset == NO_DATA
  }

  /** The weight of the inputs of a class. */
  function Share(c: Class, inputs: seq<Input>): real {
    if inputs == [] then 0.0
    else (if Holds(c, inputs[0].pair) then inputs[0].weight else 0.0) + Share(c, inputs[1..])
  }

  function Total(inputs: seq<Input>): real {
    if inputs == [] then 0.0 else inputs[0].weight + Total(inputs[1..])
  }

  /** One byte of a pair: onset, or melt-out. */
  function Byte(p: Pair, meltout: bool): int {
    if meltout then p.meltout else p.onset
  }

  /** The weighted sum of one byte of the dated inputs. */
  function DatedSum(inputs: seq<Input>, meltout: bool): real {
    if inputs == [] then 0.0
    else (if Holds(DatedClass, inputs[0].pair)
          then Times(inputs[0].weight, Byte(inputs[0].pair, meltout) as real) else 0.0)
         + DatedSum(inputs[1..], meltout)
  }

  function Mean(inputs: seq<Input>, meltout: bool): real {
    var dated := Share(DatedClass, inputs);
    DatedSum(inputs, meltout) / (if dated >= 0.000000001 then dated else 0.000000001)
  }

  /** One byte of each dated input, and 255 for each other input. */
  function Ranked(inputs: seq<Input>, meltout: bool): (r: seq<int>)
    ensures |r| == |inputs|
  {
    if inputs == [] then []
    else [if Holds(DatedClass, inputs[0].pair) then Byte(inputs[0].pair, meltout) else NO_DATA]
         + Ranked(inputs[1..], meltout)
  }

  function Count(inputs: seq<Input>): (n: nat)
    ensures n <= |inputs|
  {
    if inputs == [] then 0
    else (if Holds(DatedClass, inputs[0].pair) then 1 else 0) + Count(inputs[1..])
  }

  function Median(inputs: seq<Input>, meltout: bool): real
    requires inputs != []
  {
    var ordered, count := Sort(Ranked(inputs, meltout)), Count(inputs);
    var low, high := ordered[(if count > 0 then count - 1 else 0) / 2], ordered[count / 2];
    if count > 0 then (low + high) as real / 2.0 else 0.0
  }

  function Round(x: real): int {
    (x + 0.5).Floor
  }

  function Blend(inputs: seq<Input>, median: bool): Pair
    requires inputs != []
  {
    var dated, full, none := Share(DatedClass, inputs), Share(FullClass, inputs), Share(NoneClass, inputs);
    if Share(MissingClass, inputs) > Total(inputs) / 2.0 then Sentinel(NO_DATA)
    else if dated >= full && dated >= none then
      if median then Pair(Round(Median(inputs, false)), Round(Median(inputs, true)))
      else Pair(Round(Mean(inputs, false)), Round(Mean(inputs, true)))
    else if full >= none then Sentinel(FULL)
    else Sentinel(NO_SNOW)
  }

  predicate Inputs(inputs: seq<Input>) {
    forall i | 0 <= i < |inputs| :: Coherent(inputs[i].pair) && inputs[i].weight >= 0.0
  }

  /** Every dated input has the byte between low and high. */
  predicate Between(inputs: seq<Input>, meltout: bool, low: int, high: int) {
    forall i | 0 <= i < |inputs| && Dated(inputs[i].pair) :: low <= Byte(inputs[i].pair, meltout) <= high
  }

  // ----- the mean

  lemma {:induction false} SharesAddUp(inputs: seq<Input>)
    requires Inputs(inputs)
    ensures forall c :: Share(c, inputs) >= 0.0
    ensures Share(DatedClass, inputs) + Share(FullClass, inputs) + Share(NoneClass, inputs)
            + Share(MissingClass, inputs) == Total(inputs)
  {
    if inputs != [] { SharesAddUp(inputs[1..]); }
  }

  lemma {:induction false} DatedSumAtLeast(inputs: seq<Input>, meltout: bool, low: real)
    requires Inputs(inputs)
    requires forall i | 0 <= i < |inputs| && Dated(inputs[i].pair) :: low <= Byte(inputs[i].pair, meltout) as real
    ensures Times(low, Share(DatedClass, inputs)) <= DatedSum(inputs, meltout)
  {
    hide Times;
    if inputs == [] {
      TimesZero(low);
    } else {
      DatedSumAtLeast(inputs[1..], meltout, low);
      if Dated(inputs[0].pair) {
        TimesOrdered(inputs[0].weight, low, Byte(inputs[0].pair, meltout) as real);
        TimesSum(low, inputs[0].weight, Share(DatedClass, inputs[1..]));
      }
    }
  }

  lemma {:induction false} DatedSumAtMost(inputs: seq<Input>, meltout: bool, high: real)
    requires Inputs(inputs)
    requires forall i | 0 <= i < |inputs| && Dated(inputs[i].pair) :: Byte(inputs[i].pair, meltout) as real <= high
    ensures DatedSum(inputs, meltout) <= Times(high, Share(DatedClass, inputs))
  {
    hide Times;
    if inputs == [] {
      TimesZero(high);
    } else {
      DatedSumAtMost(inputs[1..], meltout, high);
      if Dated(inputs[0].pair) {
        TimesOrdered(inputs[0].weight, Byte(inputs[0].pair, meltout) as real, high);
        TimesSum(high, inputs[0].weight, Share(DatedClass, inputs[1..]));
      }
    }
  }

  lemma TimesZero(a: real)
    ensures Times(a, 0.0) == 0.0
  {
  }

  lemma TimesNone(a: real)
    ensures Times(0.0, a) == 0.0
  {
  }

  lemma TimesSum(a: real, w: real, s: real)
    ensures Times(a, w + s) == Times(w, a) + Times(a, s)
  {
  }

  lemma TimesOrdered(w: real, a: real, b: real)
    requires a <= b && w >= 0.0
    ensures Times(w, a) <= Times(w, b)
  {
  }

  lemma {:induction false} DatedSumsOrdered(inputs: seq<Input>)
    requires Inputs(inputs)
    ensures DatedSum(inputs, false) <= DatedSum(inputs, true)
  {
    hide Times;
    if inputs != [] {
      DatedSumsOrdered(inputs[1..]);
      var first := inputs[0];
      if Dated(first.pair) {
        TimesOrdered(first.weight, first.pair.onset as real, first.pair.meltout as real);
      }
    }
  }

  lemma RoundOrdered(x: real, y: real)
    requires x <= y
    ensures Round(x) <= Round(y)
  {
  }

  lemma RoundAtLeast(x: real, low: int)
    requires low as real <= x
    ensures low <= Round(x)
  {
  }

  lemma RoundAtMost(x: real, high: int)
    requires x <= high as real
    ensures Round(x) <= high
  {
  }

  lemma QuotientAtLeast(low: real, sum: real, d: real)
    requires Times(low, d) <= sum && d > 0.0
    ensures low <= sum / d
  {
    DivideOrdered(low * d, sum, d);
    CancelFactor(low, d);
  }

  lemma QuotientAtMost(sum: real, high: real, d: real)
    requires sum <= Times(high, d) && d > 0.0
    ensures sum / d <= high
  {
    DivideOrdered(sum, high * d, d);
    CancelFactor(high, d);
  }

  lemma MeanAtLeast(inputs: seq<Input>, meltout: bool, low: int)
    requires Inputs(inputs) && Share(DatedClass, inputs) >= 0.000000001
    requires forall i | 0 <= i < |inputs| && Dated(inputs[i].pair) :: low <= Byte(inputs[i].pair, meltout)
    ensures low <= Round(Mean(inputs, meltout))
  {
    hide Times, Round;
    DatedSumAtLeast(inputs, meltout, low as real);
    QuotientAtLeast(low as real, DatedSum(inputs, meltout), Share(DatedClass, inputs));
    RoundAtLeast(Mean(inputs, meltout), low);
  }

  lemma MeanAtMost(inputs: seq<Input>, meltout: bool, high: int)
    requires Inputs(inputs) && Share(DatedClass, inputs) >= 0.000000001
    requires forall i | 0 <= i < |inputs| && Dated(inputs[i].pair) :: Byte(inputs[i].pair, meltout) <= high
    ensures Round(Mean(inputs, meltout)) <= high
  {
    hide Times, Round;
    DatedSumAtMost(inputs, meltout, high as real);
    QuotientAtMost(DatedSum(inputs, meltout), high as real, Share(DatedClass, inputs));
    RoundAtMost(Mean(inputs, meltout), high);
  }

  lemma CancelFactor(a: real, d: real)
    requires d != 0.0
    ensures a * d / d == a
  {
  }

  /** Also without any dated weight, the mean gives an ordered pair of day steps. */
  lemma MeanCoherent(inputs: seq<Input>)
    requires Inputs(inputs)
    ensures Dated(Pair(Round(Mean(inputs, false)), Round(Mean(inputs, true))))
  {
    var dated, on, off := Share(DatedClass, inputs), DatedSum(inputs, false), DatedSum(inputs, true);
    var d := if dated >= 0.000000001 then dated else 0.000000001;
    hide Times, Round;
    SharesAddUp(inputs);
    DatedSumAtLeast(inputs, false, 0.0);
    assert Times(0.0, d) <= on by { TimesNone(d); TimesNone(dated); }
    DatedSumAtMost(inputs, true, LAST_STEP as real);
    TimesOrdered(LAST_STEP as real, dated, d);
    DatedSumsOrdered(inputs);
    DivideOrdered(on, off, d);
    RoundOrdered(on / d, off / d);
    QuotientAtLeast(0.0, on, d);
    RoundAtLeast(on / d, 0);
    QuotientAtMost(off, LAST_STEP as real, d);
    RoundAtMost(off / d, LAST_STEP);
  }

  // ----- sorting and order statistics

  function Insert(x: int, s: seq<int>): (r: seq<int>)
    ensures |r| == |s| + 1
  {
    if s == [] || x <= s[0] then [x] + s else [s[0]] + Insert(x, s[1..])
  }

  function Sort(s: seq<int>): (r: seq<int>)
    ensures |r| == |s|
  {
    if s == [] then [] else Insert(s[0], Sort(s[1..]))
  }

  predicate Ascending(s: seq<int>) {
    forall i, j | 0 <= i < j < |s| :: s[i] <= s[j]
  }

  lemma {:induction false} InsertPermutes(x: int, s: seq<int>)
    ensures multiset(Insert(x, s)) == multiset(s) + multiset{x}
  {
    if s != [] && x > s[0] {
      InsertPermutes(x, s[1..]);
      assert s == [s[0]] + s[1..];
    }
  }

  lemma {:induction false} InsertAscending(x: int, s: seq<int>)
    requires Ascending(s)
    ensures Ascending(Insert(x, s))
    ensures Insert(x, s)[0] == if s == [] || x <= s[0] then x else s[0]
  {
    if s != [] && x > s[0] {
      InsertAscending(x, s[1..]);
      AscendingCons(s[0], Insert(x, s[1..]));
    }
  }

  lemma AscendingCons(x: int, s: seq<int>)
    requires Ascending(s) && (s == [] || x <= s[0])
    ensures Ascending([x] + s)
  {
    var t := [x] + s;
    forall i, j | 0 <= i < j < |t|
      ensures t[i] <= t[j]
    {
      assert t[j] == s[j - 1];
      assert i > 0 ==> t[i] == s[i - 1];
      assert s[0] <= s[j - 1];
    }
  }

  /** `Sort` is the ascending rearrangement. */
  lemma {:induction false} SortAscending(s: seq<int>)
    ensures Ascending(Sort(s)) && multiset(Sort(s)) == multiset(s)
  {
    if s != [] {
      SortAscending(s[1..]);
      InsertAscending(s[0], Sort(s[1..]));
      InsertPermutes(s[0], Sort(s[1..]));
      assert s == [s[0]] + s[1..];
    }
  }

  predicate Below(s: seq<int>, t: seq<int>) {
    |s| == |t| && forall i | 0 <= i < |s| :: s[i] <= t[i]
  }

  lemma {:induction false} InsertBelow(x: int, s: seq<int>, y: int, t: seq<int>)
    requires x <= y && Below(s, t) && Ascending(s) && Ascending(t)
    ensures Below(Insert(x, s), Insert(y, t))
    decreases s
  {
    if s != [] {
      Heads(s, t);
      InsertFirst(x, s);
      InsertFirst(y, t);
      var a, b := s[1..], t[1..];
      hide Insert, Below, Ascending;
      if x <= s[0] && y <= t[0] {
        BelowCons(x, s, y, t);
      } else {
        // The smaller of the first and the new one comes first; the other goes into the rest.
        var u, v := if x > s[0] then x else s[0], if y > t[0] then y else t[0];
        InsertBelow(u, a, v, b);
        BelowCons(if x > s[0] then s[0] else x, Insert(u, a), if y > t[0] then t[0] else y, Insert(v, b));
      }
    }
  }

  lemma Heads(s: seq<int>, t: seq<int>)
    requires Below(s, t) && Ascending(s) && Ascending(t) && s != []
    ensures s[0] <= t[0] && Below(s[1..], t[1..]) && Ascending(s[1..]) && Ascending(t[1..])
    ensures Insert(s[0], s[1..]) == s && Insert(t[0], t[1..]) == t
  {
    InsertOwn(s);
    InsertOwn(t);
    hide Insert;
  }

  lemma InsertOwn(s: seq<int>)
    requires s != [] && Ascending(s)
    ensures Insert(s[0], s[1..]) == s
  {
    assert s == [s[0]] + s[1..];
    assert |s| > 1 ==> s[0] <= s[1];
  }

  lemma InsertFirst(x: int, s: seq<int>)
    requires s != []
    ensures Insert(x, s) == if x <= s[0] then [x] + s else [s[0]] + Insert(x, s[1..])
  {
  }

  lemma BelowCons(x: int, s: seq<int>, y: int, t: seq<int>)
    requires x <= y && Below(s, t)
    ensures Below([x] + s, [y] + t)
  {
  }

  /** Pointwise order carries over to the order statistics of the two sides. */
  lemma {:induction false} SortBelow(s: seq<int>, t: seq<int>)
    requires Below(s, t)
    ensures Below(Sort(s), Sort(t))
  {
    if s != [] {
      SortBelow(s[1..], t[1..]);
      SortAscending(s[1..]);
      SortAscending(t[1..]);
      InsertBelow(s[0], Sort(s[1..]), t[0], Sort(t[1..]));
    }
  }

  function AtMost(s: seq<int>, h: int): (n: nat)
    ensures n <= |s|
  {
    if s == [] then 0 else (if s[0] <= h then 1 else 0) + AtMost(s[1..], h)
  }

  lemma {:induction false} AtMostInsert(x: int, s: seq<int>, h: int)
    ensures AtMost(Insert(x, s), h) == AtMost([x] + s, h)
  {
    assert ([x] + s)[1..] == s;
    if s != [] && x > s[0] {
      AtMostInsert(x, s[1..], h);
      assert ([x] + s[1..])[1..] == s[1..];
    }
  }

  lemma {:induction false} AtMostSort(s: seq<int>, h: int)
    ensures AtMost(Sort(s), h) == AtMost(s, h)
  {
    if s != [] {
      AtMostSort(s[1..], h);
      AtMostInsert(s[0], Sort(s[1..]), h);
      assert ([s[0]] + Sort(s[1..]))[1..] == Sort(s[1..]);
    }
  }

  /** The first k of an ascending sequence are small when k of its elements are. */
  lemma {:induction false} FirstAreSmall(s: seq<int>, h: int, i: nat)
    requires Ascending(s) && i < AtMost(s, h)
    ensures s[i] <= h
  {
    if i > 0 {
      FirstAreSmall(s[1..], h, i - 1);
    } else {
      NoneSmall(s, h);
    }
  }

  lemma {:induction false} NoneSmall(s: seq<int>, h: int)
    requires Ascending(s) && s != []
    ensures s[0] > h ==> AtMost(s, h) == 0
  {
    if |s| > 1 {
      assert s[0] <= s[1];
      NoneSmall(s[1..], h);
    }
  }

  // ----- the median

  lemma {:induction false} RankedOrdered(inputs: seq<Input>)
    requires Inputs(inputs)
    ensures Below(Ranked(inputs, false), Ranked(inputs, true))
  {
    if inputs != [] { RankedOrdered(inputs[1..]); }
  }

  lemma {:induction false} RankedBounds(inputs: seq<Input>, meltout: bool, low: int, high: int)
    requires Inputs(inputs) && Between(inputs, meltout, low, high) && low <= NO_DATA
    ensures AtMost(Ranked(inputs, meltout), high) >= Count(inputs)
    ensures forall v | v in Ranked(inputs, meltout) :: low <= v
  {
    if inputs != [] { RankedBounds(inputs[1..], meltout, low, high); }
  }

  lemma OrderedBetween(inputs: seq<Input>, meltout: bool, low: int, high: int, i: nat)
    requires Inputs(inputs) && Between(inputs, meltout, low, high) && low <= NO_DATA
    requires i < Count(inputs)
    ensures low <= Sort(Ranked(inputs, meltout))[i] <= high
  {
    var ranked := Ranked(inputs, meltout);
    RankedBounds(inputs, meltout, low, high);
    SortAscending(ranked);
    SortMember(ranked, i);
    AtMostSort(ranked, high);
    FirstAreSmall(Sort(ranked), high, i);
  }

  lemma SortMember(s: seq<int>, i: nat)
    requires i < |s|
    ensures Sort(s)[i] in s
  {
    SortAscending(s);
    assert Sort(s)[i] in multiset(Sort(s));
  }

  /** The median of a byte lies between the bytes of the dated inputs. */
  lemma MedianBetween(inputs: seq<Input>, meltout: bool, low: int, high: int)
    requires Inputs(inputs) && inputs != [] && Count(inputs) > 0
    requires Between(inputs, meltout, low, high) && low <= NO_DATA
    ensures low <= Round(Median(inputs, meltout)) <= high
  {
    var count := Count(inputs);
    OrderedBetween(inputs, meltout, low, high, (count - 1) / 2);
    OrderedBetween(inputs, meltout, low, high, count / 2);
    RoundAtLeast(Median(inputs, meltout), low);
    RoundAtMost(Median(inputs, meltout), high);
  }

  lemma MedianCoherent(inputs: seq<Input>)
    requires Inputs(inputs) && inputs != []
    ensures Dated(Pair(Round(Median(inputs, false)), Round(Median(inputs, true))))
  {
    if Count(inputs) > 0 {
      MedianBetween(inputs, false, 0, LAST_STEP);
      MedianBetween(inputs, true, 0, LAST_STEP);
      RankedOrdered(inputs);
      SortBelow(Ranked(inputs, false), Ranked(inputs, true));
      assert Median(inputs, false) <= Median(inputs, true);
      RoundOrdered(Median(inputs, false), Median(inputs, true));
    }
  }

  // ----- the blend

  /** Every blend of coherent pairs, by mean or by median, is coherent. */
  lemma BlendCoherent(inputs: seq<Input>, median: bool)
    requires Inputs(inputs) && inputs != []
    ensures Coherent(Blend(inputs, median))
  {
    if median { MedianCoherent(inputs); } else { MeanCoherent(inputs); }
  }

  lemma {:induction false} NoDatedShare(inputs: seq<Input>)
    ensures Count(inputs) == 0 ==> Share(DatedClass, inputs) == 0.0
  {
    if inputs != [] { NoDatedShare(inputs[1..]); }
  }

  /** With weights of sum 1, a dated blend lies inside the range of its dated inputs, byte by byte. */
  lemma BlendBetween(inputs: seq<Input>, median: bool, meltout: bool, low: int, high: int)
    requires Inputs(inputs) && inputs != [] && Total(inputs) == 1.0
    requires Between(inputs, meltout, low, high) && low <= NO_DATA
    requires Dated(Blend(inputs, median))
    ensures low <= Byte(Blend(inputs, median), meltout) <= high
  {
    SharesAddUp(inputs);
    NoDatedShare(inputs);
    assert Share(DatedClass, inputs) >= 1.0 / 6.0;
    if median {
      MedianBetween(inputs, meltout, low, high);
    } else {
      MeanAtLeast(inputs, meltout, low);
      MeanAtMost(inputs, meltout, high);
    }
  }

  lemma {:induction false} UnanimousShare(inputs: seq<Input>, p: Pair, c: Class)
    requires forall i | 0 <= i < |inputs| :: inputs[i].pair == p
    ensures Share(c, inputs) == if Holds(c, p) then Total(inputs) else 0.0
  {
    if inputs != [] { UnanimousShare(inputs[1..], p, c); }
  }

  /** Equal inputs blend to themselves. */
  lemma BlendUnanimous(inputs: seq<Input>, median: bool, p: Pair)
    requires Inputs(inputs) && inputs != [] && Total(inputs) == 1.0
    requires forall i | 0 <= i < |inputs| :: inputs[i].pair == p
    ensures Blend(inputs, median) == p
  {
    assert Coherent(inputs[0].pair);
    UnanimousShare(inputs, p, DatedClass);
    UnanimousShare(inputs, p, FullClass);
    UnanimousShare(inputs, p, NoneClass);
    UnanimousShare(inputs, p, MissingClass);
    if Dated(p) {
      BlendCoherent(inputs, median);
      if median { MedianCoherent(inputs); } else { MeanCoherent(inputs); }
      BlendBetween(inputs, median, false, p.onset, p.onset);
      BlendBetween(inputs, median, true, p.meltout, p.meltout);
    }
  }
}
