/** What a blend is, in sums and counts over its inputs: which class wins, and which value a dated blend
    has. */
module SnowBlendRule {
  import opened Reals
  import opened Sums
  import opened SnowBytes
  import opened SnowBlend

  /** The weight of input i if its onset byte lies between low and high. */
  function WeightIf(inputs: seq<Input>, low: int, high: int): int -> real {
    i => if 0 <= i < |inputs| && low <= inputs[i].pair.onset <= high then inputs[i].weight else 0.0
  }

  /** The weight of the inputs whose onset byte lies between low and high. */
  function Weight(inputs: seq<Input>, low: int, high: int): real {
    Sum(|inputs|, WeightIf(inputs, low, high))
  }

  lemma {:induction false} ShareIsWeight(c: Class, inputs: seq<Input>, low: int, high: int)
    requires forall i | 0 <= i < |inputs| :: Holds(c, inputs[i].pair) <==> low <= inputs[i].pair.onset <= high
    ensures Share(c, inputs) == Weight(inputs, low, high)
  {
    if inputs != [] {
      var n, rest := |inputs| - 1, inputs[1..];
      forall i | 0 <= i < n
        ensures rest[i] == inputs[i + 1]
      {
      }
      ShareIsWeight(c, rest, low, high);
      SumFirst(n, WeightIf(inputs, low, high), WeightIf(rest, low, high));
    }
  }

  lemma {:induction false} TotalIsWeight(inputs: seq<Input>)
    requires forall i | 0 <= i < |inputs| :: 0 <= inputs[i].pair.onset <= 255
    ensures Total(inputs) == Weight(inputs, 0, 255)
  {
    if inputs != [] {
      var n, rest := |inputs| - 1, inputs[1..];
      forall i | 0 <= i < n
        ensures rest[i] == inputs[i + 1]
      {
      }
      TotalIsWeight(rest);
      SumFirst(n, WeightIf(inputs, 0, 255), WeightIf(rest, 0, 255));
    }
  }

  lemma Weights(inputs: seq<Input>)
    requires Inputs(inputs)
    ensures Share(DatedClass, inputs) == Weight(inputs, 0, 182)
    ensures Share(NoneClass, inputs) == Weight(inputs, 253, 253)
    ensures Share(FullClass, inputs) == Weight(inputs, 254, 254)
    ensures Share(MissingClass, inputs) == Weight(inputs, 255, 255)
    ensures Total(inputs) == Weight(inputs, 0, 255)
  {
    hide Weight, Share, Total;
    ShareIsWeight(DatedClass, inputs, 0, 182);
    ShareIsWeight(NoneClass, inputs, 253, 253);
    ShareIsWeight(FullClass, inputs, 254, 254);
    ShareIsWeight(MissingClass, inputs, 255, 255);
    TotalIsWeight(inputs);
  }

  /** The class of a blend: no data where more than half of the weight has none; else the heaviest of dated,
      254 and 253, the earlier of these on a tie. */
  lemma BlendClass(inputs: seq<Input>, median: bool)
    requires Inputs(inputs) && inputs != []
    ensures var b := Blend(inputs, median);
      var dated, none, full := Weight(inputs, 0, 182), Weight(inputs, 253, 253), Weight(inputs, 254, 254);
      var known := Weight(inputs, 255, 255) <= Weight(inputs, 0, 255) / 2.0;
      && (b == Pair(255, 255) <==> !known)
      && (0 <= b.onset <= b.meltout <= 182 <==> known && dated >= full && dated >= none)
      && (b == Pair(254, 254) <==> known && full > dated && full >= none)
      && (b == Pair(253, 253) <==> known && none > dated && none > full)
  {
    Weights(inputs);
    MeanCoherent(inputs);
    MedianCoherent(inputs);
    hide Weight, Share, Total, Mean, Median, Round;
  }

  // ----- the mean

  /** The weighted byte of input i if it is dated. */
  function ProductIf(inputs: seq<Input>, meltout: bool): int -> real {
    i => if 0 <= i < |inputs| && inputs[i].pair.onset <= 182
         then inputs[i].weight * (if meltout then inputs[i].pair.meltout else inputs[i].pair.onset) as real
         else 0.0
  }

  lemma {:induction false} DatedSumIsSum(inputs: seq<Input>, meltout: bool)
    ensures DatedSum(inputs, meltout) == Sum(|inputs|, ProductIf(inputs, meltout))
  {
    hide Times, ProductIf;
    if inputs != [] {
      DatedSumIsSum(inputs[1..], meltout);
      FirstProduct(inputs, meltout);
      SumFirst(|inputs| - 1, ProductIf(inputs, meltout), ProductIf(inputs[1..], meltout));
    }
  }

  lemma FirstProduct(inputs: seq<Input>, meltout: bool)
    requires inputs != []
    ensures ProductIf(inputs, meltout)(0)
         == if inputs[0].pair.onset <= 182 then Times(inputs[0].weight, Byte(inputs[0].pair, meltout) as real) else 0.0
    ensures forall i | 0 <= i < |inputs| - 1 :: ProductIf(inputs[1..], meltout)(i) == ProductIf(inputs, meltout)(i + 1)
  {
    var rest := inputs[1..];
    forall i | 0 <= i < |rest|
      ensures ProductIf(rest, meltout)(i) == ProductIf(inputs, meltout)(i + 1)
    {
      assert rest[i] == inputs[i + 1];
    }
  }

  /** A byte of a dated mean, times the dated weight, is the weighted sum of that byte of the dated inputs,
      rounded half up. The source never divides by less than 1e-9. */
  lemma BlendMean(inputs: seq<Input>, meltout: bool)
    requires Inputs(inputs) && inputs != [] && Dated(Blend(inputs, false))
    ensures var b := Blend(inputs, false);
      var byte := (if meltout then b.meltout else b.onset) as real;
      var dated := Weight(inputs, 0, 182);
      var divisor := if dated >= 0.000000001 then dated else 0.000000001;
      (byte - 0.5) * divisor <= Sum(|inputs|, ProductIf(inputs, meltout)) < (byte + 0.5) * divisor
  {
    hide Weight, Share, Total, DatedSum, Sum, Round, Blend;
    Weights(inputs);
    DatedSumIsSum(inputs, meltout);
    var dated := Weight(inputs, 0, 182);
    var divisor := if dated >= 0.000000001 then dated else 0.000000001;
    DatedByClass(inputs, false);
    RoundedQuotient(DatedSum(inputs, meltout), divisor, Mean(inputs, meltout));
  }

  lemma RoundedQuotient(sum: real, d: real, q: real)
    requires d > 0.0 && q == sum / d
    ensures (Round(q) as real - 0.5) * d <= sum < (Round(q) as real + 0.5) * d
  {
    var low, high := Round(q) as real - 0.5, Round(q) as real + 0.5;
    assert q * d == sum;
    assert low <= q < high;
    hide Round;
    AtLeastScaled(low, q, d, sum);
    BelowScaled(high, q, d, sum);
  }

  lemma AtLeastScaled(low: real, q: real, d: real, sum: real)
    requires low <= q && d > 0.0 && q * d == sum
    ensures low * d <= sum
  {
    assert (q - low) * d >= 0.0;
  }

  lemma BelowScaled(high: real, q: real, d: real, sum: real)
    requires q < high && d > 0.0 && q * d == sum
    ensures sum < high * d
  {
    assert (high - q) * d > 0.0;
  }

  /** A dated blend is the mean or the median of the dated inputs, as the flag says. */
  lemma DatedByClass(inputs: seq<Input>, median: bool)
    requires Inputs(inputs) && inputs != [] && Dated(Blend(inputs, median))
    ensures Blend(inputs, median) ==
            if median then Pair(Round(Median(inputs, false)), Round(Median(inputs, true)))
            else Pair(Round(Mean(inputs, false)), Round(Mean(inputs, true)))
  {
    hide Share, Total, Mean, Median, Round;
  }

  // ----- the median

  /** The byte of input i, if it is dated, has the property. */
  function DatedWith(inputs: seq<Input>, meltout: bool, test: int -> bool): int -> bool {
    i => 0 <= i < |inputs| && inputs[i].pair.onset <= 182
         && test(if meltout then inputs[i].pair.meltout else inputs[i].pair.onset)
  }

  /** How many dated inputs have a byte with the property. */
  function Dates(inputs: seq<Input>, meltout: bool, test: int -> bool): nat {
    Tally(|inputs|, DatedWith(inputs, meltout, test))
  }

  lemma DatesFirst(inputs: seq<Input>, meltout: bool, test: int -> bool)
    requires inputs != []
    ensures Dates(inputs, meltout, test)
         == (if DatedWith(inputs, meltout, test)(0) then 1 else 0) + Dates(inputs[1..], meltout, test)
  {
    var n, rest := |inputs| - 1, inputs[1..];
    forall i | 0 <= i < n
      ensures rest[i] == inputs[i + 1]
    {
    }
    TallyFirst(n, DatedWith(inputs, meltout, test), DatedWith(rest, meltout, test));
  }

  lemma {:induction false} CountOfDates(inputs: seq<Input>, meltout: bool, any: int -> bool)
    requires forall v :: any(v)
    ensures Count(inputs) == Dates(inputs, meltout, any)
  {
    hide Dates;
    if inputs != [] {
      CountOfDates(inputs[1..], meltout, any);
      DatesFirst(inputs, meltout, any);
    } else {
      NoDates(meltout, any);
    }
  }

  lemma NoDates(meltout: bool, test: int -> bool)
    ensures Dates([], meltout, test) == 0
  {
  }

  lemma {:induction false} RankedAtMost(inputs: seq<Input>, meltout: bool, h: int, test: int -> bool)
    requires h < NO_DATA && forall v :: test(v) <==> v <= h
    ensures AtMost(Ranked(inputs, meltout), h) == Dates(inputs, meltout, test)
  {
    hide Dates;
    if inputs != [] {
      RankedAtMost(inputs[1..], meltout, h, test);
      DatesFirst(inputs, meltout, test);
      assert Ranked(inputs, meltout)[1..] == Ranked(inputs[1..], meltout);
    } else {
      NoDates(meltout, test);
    }
  }

  lemma DatesSplit(inputs: seq<Input>, meltout: bool, p: int -> bool, q: int -> bool, either: int -> bool)
    requires forall v :: (either(v) <==> p(v) || q(v)) && !(p(v) && q(v))
    ensures Dates(inputs, meltout, either) == Dates(inputs, meltout, p) + Dates(inputs, meltout, q)
  {
    TallySplit(|inputs|, DatedWith(inputs, meltout, p), DatedWith(inputs, meltout, q),
      DatedWith(inputs, meltout, either));
  }

  lemma {:induction false} RestAreLarge(s: seq<int>, h: int, i: nat)
    requires Ascending(s) && AtMost(s, h) <= i < |s|
    ensures s[i] > h
  {
    if s[0] > h {
      assert i > 0 ==> s[0] <= s[i];
    } else {
      RestAreLarge(s[1..], h, i - 1);
    }
  }

  /** The element of rank i among the dated bytes: more than i of them lie at or below it, and at most i below. */
  lemma RankedAt(inputs: seq<Input>, meltout: bool, i: nat, v: int)
    requires Inputs(inputs) && i < Count(inputs) && v == Sort(Ranked(inputs, meltout))[i]
    ensures Dates(inputs, meltout, u => u <= v) > i >= Dates(inputs, meltout, u => u < v)
  {
    hide Dates, Ascending;
    var ranked := Ranked(inputs, meltout);
    BytesInRange(inputs, meltout);
    OrderedBetween(inputs, meltout, 0, LAST_STEP, i);
    SortAscending(ranked);
    AtMostSort(ranked, v);
    AtMostSort(ranked, v - 1);
    if i >= AtMost(Sort(ranked), v) { RestAreLarge(Sort(ranked), v, i); }
    if i < AtMost(Sort(ranked), v - 1) { FirstAreSmall(Sort(ranked), v - 1, i); }
    RankedAtMost(inputs, meltout, v, u => u <= v);
    RankedAtMost(inputs, meltout, v - 1, u => u < v);
  }

  lemma BytesInRange(inputs: seq<Input>, meltout: bool)
    requires Inputs(inputs)
    ensures Between(inputs, meltout, 0, LAST_STEP)
  {
  }

  /** The two middle bytes of the dated inputs; they are the same one when their number is odd. */
  ghost predicate Middles(inputs: seq<Input>, meltout: bool, low: int, high: int) {
    var k := Dates(inputs, meltout, _ => true);
    && 2 * Dates(inputs, meltout, u => u <= low) >= k > 2 * Dates(inputs, meltout, u => u < low)
    && 2 * Dates(inputs, meltout, u => u >= high) >= k > 2 * Dates(inputs, meltout, u => u > high)
  }

  /** A byte of a dated median: 0 without a dated input, else the mean of the two middle bytes of the dated
      inputs, rounded half up. */
  lemma BlendMedian(inputs: seq<Input>, meltout: bool) returns (low: int, high: int)
    requires Inputs(inputs) && inputs != [] && Dated(Blend(inputs, true))
    ensures var b := Blend(inputs, true);
      var byte, k := if meltout then b.meltout else b.onset, Dates(inputs, meltout, _ => true);
      && (k == 0 ==> byte == 0)
      && (k > 0 ==> Middles(inputs, meltout, low, high) && low <= high && low + high <= 2 * byte <= low + high + 1)
  {
    hide Dates, Middles, Sort, Ranked, Blend, Median, Round;
    DatedByClass(inputs, true);
    CountOfDates(inputs, meltout, _ => true);
    var k := Count(inputs);
    low, high := 0, 0;
    if k > 0 {
      var ordered := Sort(Ranked(inputs, meltout));
      low, high := ordered[(k - 1) / 2], ordered[k / 2];
      MiddlesRanked(inputs, meltout);
      SortAscending(Ranked(inputs, meltout));
      MedianOfMiddles(inputs, meltout);
      HalfUp(low, high);
    } else {
      MedianOfNone(inputs, meltout);
    }
  }

  lemma MedianOfMiddles(inputs: seq<Input>, meltout: bool)
    requires inputs != [] && Count(inputs) > 0
    ensures var ordered, k := Sort(Ranked(inputs, meltout)), Count(inputs);
      Median(inputs, meltout) == (ordered[(k - 1) / 2] + ordered[k / 2]) as real / 2.0
  {
    hide Sort, Ranked;
  }

  lemma MedianOfNone(inputs: seq<Input>, meltout: bool)
    requires inputs != [] && Count(inputs) == 0
    ensures Round(Median(inputs, meltout)) == 0
  {
    hide Sort, Ranked;
  }

  lemma HalfUp(low: int, high: int)
    ensures low + high <= 2 * Round((low + high) as real / 2.0) <= low + high + 1
  {
  }

  lemma MiddlesRanked(inputs: seq<Input>, meltout: bool)
    requires Inputs(inputs) && Count(inputs) > 0
    ensures var ordered, k := Sort(Ranked(inputs, meltout)), Count(inputs);
      Middles(inputs, meltout, ordered[(k - 1) / 2], ordered[k / 2])
  {
    var ordered, k := Sort(Ranked(inputs, meltout)), Count(inputs);
    var low, high := ordered[(k - 1) / 2], ordered[k / 2];
    hide Dates, Sort, Ranked;
    CountOfDates(inputs, meltout, _ => true);
    RankedAt(inputs, meltout, (k - 1) / 2, low);
    RankedAt(inputs, meltout, k / 2, high);
    DatesSplit(inputs, meltout, u => u < high, u => u >= high, _ => true);
    DatesSplit(inputs, meltout, u => u <= high, u => u > high, _ => true);
  }

  /** So at least half of the dated bytes lie at or below the byte, and at least half at or above. */
  lemma MedianHalves(inputs: seq<Input>, meltout: bool)
    requires Inputs(inputs) && inputs != [] && Dated(Blend(inputs, true))
    ensures var b := Blend(inputs, true);
      var byte, k := if meltout then b.meltout else b.onset, Dates(inputs, meltout, _ => true);
      k > 0 ==> 2 * Dates(inputs, meltout, u => u <= byte) >= k && 2 * Dates(inputs, meltout, u => u >= byte) >= k
  {
    hide Dates, Blend;
    var low, high := BlendMedian(inputs, meltout);
    var b := Blend(inputs, true);
    var byte, k := if meltout then b.meltout else b.onset, Dates(inputs, meltout, _ => true);
    if k > 0 {
      DatesSplit(inputs, meltout, u => u <= low, u => low < u <= byte, u => u <= byte);
      DatesSplit(inputs, meltout, u => u >= high, u => byte <= u < high, u => u >= byte);
    }
  }
}
