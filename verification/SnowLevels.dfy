/** The runs of bands of one pixel: for each level, the bands in which enough of the seasons with
    data have snow. */
module SnowLevels {
  import opened SnowBytes
  import opened LongestRun
  import opened Sums

  const BANDS := 46

  datatype Level = AnySeason | QuarterOfSeasons | HalfOfSeasons | ThreeQuartersOfSeasons | EverySeason

  /** Whether a level holds a band with snow in c of k seasons. */
  predicate Reached(level: Level, c: int, k: int) {
    match level
    case AnySeason => c >= 1
    case QuarterOfSeasons => c >= 1 && 4 * c >= k
    case HalfOfSeasons => c >= 1 && 2 * c >= k
    case ThreeQuartersOfSeasons => 4 * c >= 3 * k
    case EverySeason => c == k
  }

  /** The third day step of a band, or the last of the season. */
  function DayStep(band: int): int {
    if 4 * band + 2 < LAST_STEP then 4 * band + 2 else LAST_STEP
  }

  predicate SnowOn(p: Pair, day: int) {
    (p.onset <= LAST_STEP && p.onset <= day <= p.meltout) || p.onset == FULL
  }

  /** The seasons with data. */
  function Known(planes: seq<Pair>): nat {
    if planes == [] then 0 else (if planes[0].onset != NO_DATA then 1 else 0) + Known(planes[1..])
  }

  /** The seasons with snow on the day of a band. */
  function SnowySeasons(planes: seq<Pair>, band: int): nat {
    if planes == [] then 0
    else (if SnowOn(planes[0], DayStep(band)) then 1 else 0) + SnowySeasons(planes[1..], band)
  }

  /** The bands that a level holds. */
  function Bands(level: Level, planes: seq<Pair>): int -> bool {
    band => Reached(level, SnowySeasons(planes, band), Known(planes))
  }

  // ----- what the levels mean together

  lemma {:induction false} SnowyAreKnown(planes: seq<Pair>, band: int)
    ensures SnowySeasons(planes, band) <= Known(planes)
  {
    if planes != [] { SnowyAreKnown(planes[1..], band); }
  }

  /** Pigeonhole: each season has snow on one interval of bands, so the seasons with snow in two bands
      have it in every band between. */
  lemma {:induction false} SeasonsOverlap(planes: seq<Pair>, a: int, m: int, b: int)
    requires a <= m <= b
    ensures SnowySeasons(planes, a) + SnowySeasons(planes, b) <= Known(planes) + SnowySeasons(planes, m)
  {
    if planes != [] { SeasonsOverlap(planes[1..], a, m, b); }
  }

  /** A band between two three-quarters bands is a half band. */
  lemma BetweenThreeQuarters(planes: seq<Pair>, a: int, m: int, b: int)
    requires Known(planes) >= 1 && a <= m <= b
    requires Bands(ThreeQuartersOfSeasons, planes)(a) && Bands(ThreeQuartersOfSeasons, planes)(b)
    ensures Bands(HalfOfSeasons, planes)(m)
  {
    SeasonsOverlap(planes, a, m, b);
  }

  /** The bands with snow in every season form one interval. */
  lemma EveryIsInterval(planes: seq<Pair>, a: int, m: int, b: int)
    requires a <= m <= b && Bands(EverySeason, planes)(a) && Bands(EverySeason, planes)(b)
    ensures Bands(EverySeason, planes)(m)
  {
    SeasonsOverlap(planes, a, m, b);
    SnowyAreKnown(planes, m);
  }

  /** The place of a level in the order from loose to strict. */
  function Strictness(level: Level): int {
    match level
    case AnySeason => 0
    case QuarterOfSeasons => 1
    case HalfOfSeasons => 2
    case ThreeQuartersOfSeasons => 3
    case EverySeason => 4
  }

  lemma StricterHoldsFewer(planes: seq<Pair>, loose: Level, strict: Level, band: int)
    requires Known(planes) >= 1 && Strictness(loose) <= Strictness(strict)
    requires Bands(strict, planes)(band)
    ensures Bands(loose, planes)(band)
  {
    SnowyAreKnown(planes, band);
  }

  // ----- the band loop

  /** The first and the last band of a run, or one sentinel twice. */
  datatype Run = Run(first: int, last: int)

  /** What one level gets: 255 without a season with data, 253 without a band, else its earliest
      longest run. */
  ghost predicate IsRun(level: Level, planes: seq<Pair>, r: Run) {
    var f := Bands(level, planes);
    if Known(planes) == 0 then r == Run(NO_DATA, NO_DATA)
    else if forall b | 0 <= b < BANDS :: !f(b) then r == Run(NO_SNOW, NO_SNOW)
    else 0 <= r.first <= r.last < BANDS && Longest(f, BANDS, r.first, r.last - r.first + 1)
  }

  function Byte(v: int): int {
    v % 256
  }

  /** The loop state after n bands: the run that ends there, the longest run and its last band. */
  ghost predicate Loop(f: int -> bool, n: int, run: int, best: int, end: int) {
    && 0 <= run <= best <= n && All(f, n - run, n) && (run == n || !f(n - run - 1))
    && (if best == 0 then end == 0 && Longest(f, n, 0, 0)
        else best - 1 <= end < n && Longest(f, n, end - best + 1, best))
  }

  lemma LoopStep(f: int -> bool, n: int, run: int, best: int, end: int, run': int, best': int, end': int)
    requires Loop(f, n, run, best, end) && n >= 0
    requires run' == if f(n) then run + 1 else 0
    requires best' == (if run' > best then run' else best) && end' == if run' > best then n else end
    ensures Loop(f, n + 1, run', best', end')
  {
    var first := if best == 0 then 0 else end - best + 1;
    if f(n) {
      LongestGrown(f, n, run, first, best);
    } else {
      LongestPadded(f, n, n + 1, first, best);
    }
  }

  lemma LoopStart(f: int -> bool)
    ensures Loop(f, 0, 0, 0, 0)
  {
  }

  lemma LoopBounds(f: int -> bool, n: int, run: int, best: int, end: int)
    requires Loop(f, n, run, best, end)
    ensures 0 <= run <= best <= n && 0 <= end <= n
  {
  }

  /** The wrapping subtraction gives the true first band. */
  lemma LoopEnd(level: Level, planes: seq<Pair>, run: int, best: int, end: int)
    requires Loop(Bands(level, planes), BANDS, run, best, end) && Known(planes) > 0
    ensures IsRun(level, planes,
                  if best == 0 then Run(NO_SNOW, NO_SNOW) else Run(Byte(Byte(end - best) + 1), end))
  {
    var f := Bands(level, planes);
    if best == 0 {
      NoRun(f);
    } else {
      assert f(end);
      assert Byte(Byte(end - best) + 1) == end - best + 1;
    }
  }

  /** The run of one level, in unsigned bytes as the source counts. */
  method RunOf(level: Level, planes: seq<Pair>) returns (r: Run)
    ensures IsRun(level, planes, r)
  {
    hide Loop;
    var known := Known(planes);
    ghost var f := Bands(level, planes);
    var run, best, end := 0, 0, 0;
    LoopStart(f);
    for band := 0 to BANDS
      invariant Loop(f, band, run, best, end)
    {
      var snowy := SnowySeasons(planes, band);
      LoopBounds(f, band, run, best, end);
      ghost var run0, best0, end0 := run, best, end;
      run := Byte(run + 1);
      run := Byte(run * (if Reached(level, snowy, known) then 1 else 0));
      if run > best { end := band; }
      best := if run > best then run else best;
      LoopStep(f, band, run0, best0, end0, run, best, end);
    }
    if known == 0 {
      r := Run(NO_DATA, NO_DATA);
    } else {
      LoopEnd(level, planes, run, best, end);
      r := if best == 0 then Run(NO_SNOW, NO_SNOW) else Run(Byte(Byte(end - best) + 1), end);
    }
  }

  lemma NoRun(f: int -> bool)
    requires Longest(f, BANDS, 0, 0)
    ensures forall b | 0 <= b < BANDS :: !f(b)
  {
    forall b | 0 <= b < BANDS
      ensures !f(b)
    {
      assert !All(f, b, b + 1);
    }
  }

  /** The runs of all levels, loosest first. */
  method Runs(planes: seq<Pair>) returns (runs: seq<Run>)
    ensures |runs| == 5
    ensures forall level :: IsRun(level, planes, runs[Strictness(level)])
  {
    var any := RunOf(AnySeason, planes);
    var quarter := RunOf(QuarterOfSeasons, planes);
    var half := RunOf(HalfOfSeasons, planes);
    var threeQuarters := RunOf(ThreeQuartersOfSeasons, planes);
    var every := RunOf(EverySeason, planes);
    runs := [any, quarter, half, threeQuarters, every];
  }

  /** Run lengths never grow from a looser level to a stricter one. */
  lemma RunsShrink(planes: seq<Pair>, loose: Level, strict: Level, a: Run, b: Run)
    requires Known(planes) >= 1 && Strictness(loose) <= Strictness(strict)
    requires IsRun(loose, planes, a) && IsRun(strict, planes, b) && b.first != NO_SNOW
    ensures a.first != NO_SNOW && b.last - b.first <= a.last - a.first
  {
    var f, g := Bands(strict, planes), Bands(loose, planes);
    forall d | f(d)
      ensures g(d)
    {
      StricterHoldsFewer(planes, loose, strict, d);
    }
    assert f(b.first);
    LongestWeaker(f, g, BANDS, b.first, b.last - b.first + 1, a.first, a.last - a.first + 1);
  }

  /** The run of the strictest level is all of its bands. */
  lemma EveryRunIsWhole(planes: seq<Pair>, r: Run, band: int)
    requires Known(planes) >= 1 && IsRun(EverySeason, planes, r) && 0 <= band < BANDS
    ensures Bands(EverySeason, planes)(band) <==> r.first <= band <= r.last
  {
    var f := Bands(EverySeason, planes);
    forall a, b, m | 0 <= a <= m <= b < BANDS && f(a) && f(b)
      ensures f(m)
    {
      EveryIsInterval(planes, a, m, b);
    }
    if f(band) {
      LongestOfInterval(f, BANDS, r.first, r.last - r.first + 1, band);
    }
  }

  // ----- the levels without the functions above

  /** A level by the numbers of seasons with snow and of seasons with data. */
  ghost predicate Enough(level: Level, snowy: int, known: int) {
    && (level == AnySeason ==> snowy >= 1)
    && (level == QuarterOfSeasons ==> snowy >= 1 && snowy as real >= 0.25 * known as real)
    && (level == HalfOfSeasons ==> snowy >= 1 && snowy as real >= 0.5 * known as real)
    && (level == ThreeQuartersOfSeasons ==> snowy as real >= 0.75 * known as real)
    && (level == EverySeason ==> snowy == known)
  }

  lemma {:induction false} CountsOfSeasons(planes: seq<Pair>, band: int)
    ensures Known(planes) == Tally(|planes|, i => 0 <= i < |planes| && planes[i].onset != 255)
    ensures SnowySeasons(planes, band) == Tally(|planes|, i => 0 <= i < |planes| && SnowOn(planes[i], DayStep(band)))
  {
    if planes != [] {
      var n, rest := |planes| - 1, planes[1..];
      CountsOfSeasons(rest, band);
      TallyFirst(n, i => 0 <= i < |planes| && planes[i].onset != 255, i => 0 <= i < n && rest[i].onset != 255);
      TallyFirst(n, i => 0 <= i < |planes| && SnowOn(planes[i], DayStep(band)),
        i => 0 <= i < n && SnowOn(rest[i], DayStep(band)));
    }
  }

  /** A level holds a band exactly when enough of the seasons with data have snow on its day: a season has
      snow there if it is 254, or if the day lies between onset and melt-out. */
  lemma BandsMean(level: Level, planes: seq<Pair>, band: int, snowy: set<int>, known: set<int>)
    requires forall i :: i in known <==> 0 <= i < |planes| && planes[i].onset != 255
    requires forall i :: i in snowy <==>
               && 0 <= i < |planes|
               && (planes[i].onset == 254
                   || planes[i].onset <= (if 4 * band + 2 <= 182 then 4 * band + 2 else 182) <= planes[i].meltout)
    ensures Bands(level, planes)(band) <==> Enough(level, |snowy|, |known|)
  {
    CountsOfSeasons(planes, band);
    TallyIsSize(|planes|, i => 0 <= i < |planes| && planes[i].onset != 255, known);
    TallyIsSize(|planes|, i => 0 <= i < |planes| && SnowOn(planes[i], DayStep(band)), snowy);
  }

  lemma {:induction false} AllSnowy(planes: seq<Pair>, band: int)
    requires forall i | 0 <= i < |planes| :: planes[i] == Pair(254, 254)
    ensures SnowySeasons(planes, band) == Known(planes) == |planes|
  {
    if planes != [] { AllSnowy(planes[1..], band); }
  }

  /** Snow all year in every season: each level has all 46 bands. */
  lemma FullSeasons(level: Level, planes: seq<Pair>, r: Run)
    requires planes != [] && forall i | 0 <= i < |planes| :: planes[i] == Pair(254, 254)
    requires IsRun(level, planes, r)
    ensures r == Run(0, 45)
  {
    var f := Bands(level, planes);
    AllSnowy(planes, 0);
    forall b
      ensures f(b)
    {
      AllSnowy(planes, b);
    }
    assert f(0) && All(f, 0, BANDS);
  }

  /** One dated season: each level has the bands whose day the season covers. */
  lemma OneSeason(level: Level, p: Pair, band: int)
    requires 0 <= p.onset <= p.meltout <= 182
    ensures Bands(level, [p])(band)
       <==> p.onset <= (if 4 * band + 2 <= 182 then 4 * band + 2 else 182) <= p.meltout
  {
    assert [p][1..] == [];
    assert Known([]) == 0 && SnowySeasons([], band) == 0;
  }
}
