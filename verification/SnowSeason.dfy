/** One pixel of a snow season: the one-pass state machine of `SnowSeason` against the season in
    which every day takes the state of its nearest clear day. */
module SnowSeason {
  import opened SnowBytes
  import opened LongestRun

  datatype Observation = Observation(day: int, clear: bool, snow: bool)

  datatype ClearDay = ClearDay(day: int, snow: bool)

  /** The clear days of a season's observations. */
  function ClearDays(history: seq<Observation>): (c: seq<ClearDay>)
  {
    if history == [] then [] else
      var before, o := ClearDays(history[..|history| - 1]), history[|history| - 1];
      if o.clear then before + [ClearDay(o.day, o.snow)] else before
  }

  predicate InOrder(history: seq<Observation>, days: int) {
    && (forall i | 0 <= i < |history| :: 0 <= history[i].day < days)
    && (forall i, j | 0 <= i < j < |history| :: history[i].day < history[j].day)
  }

  predicate Increasing(c: seq<ClearDay>) {
    && (forall i | 0 <= i < |c| :: 0 <= c[i].day)
    && (forall i, j | 0 <= i < j < |c| :: c[i].day < c[j].day)
  }

  lemma {:induction false} ClearDaysInOrder(history: seq<Observation>, days: int)
    requires InOrder(history, days)
    ensures var c := ClearDays(history);
      && Increasing(c)
      && (forall i | 0 <= i < |c| :: c[i].day < days)
      && (c != [] ==> c[|c| - 1].day <= history[|history| - 1].day)
  {
    if history != [] {
      ClearDaysInOrder(history[..|history| - 1], days);
    }
  }

  // ----- the offline season

  function Distance(a: int, b: int): int {
    if a <= b then b - a else a - b
  }

  /** Clear day i is the nearest to day d; on a tie, the earlier one. */
  predicate Nearest(c: seq<ClearDay>, d: int, i: int) {
    && 0 <= i < |c|
    && forall j | 0 <= j < |c| ::
         || Distance(c[i].day, d) < Distance(c[j].day, d)
         || (Distance(c[i].day, d) == Distance(c[j].day, d) && i <= j)
  }

  /** The first day after a that is nearer to b. */
  function Switch(a: int, b: int): int {
    (a + b) / 2 + 1
  }

  /** The state of day d. */
  predicate Snowy(c: seq<ClearDay>, d: int) {
    if c == [] then false
    else if |c| == 1 || d >= Switch(c[|c| - 2].day, c[|c| - 1].day) then c[|c| - 1].snow
    else Snowy(c[..|c| - 1], d)
  }

  /** Each day takes the state of its nearest clear day. */
  lemma {:induction false} SnowyIsNearest(c: seq<ClearDay>, d: int, i: int)
    requires Increasing(c) && Nearest(c, d, i)
    ensures Snowy(c, d) == c[i].snow
  {
    var n := |c|;
    if n > 1 {
      var a, b := c[n - 2].day, c[n - 1].day;
      if d < Switch(a, b) {
        assert Distance(a, d) <= Distance(b, d);
        assert i < n - 1;
        SnowyIsNearest(c[..n - 1], d, i);
      } else {
        assert Distance(b, d) < Distance(a, d);
        assert Distance(c[i].day, d) <= Distance(b, d);
      }
    }
  }

  lemma {:induction false} NearestExists(c: seq<ClearDay>, d: int) returns (i: int)
    requires c != []
    ensures Nearest(c, d, i)
  {
    var n := |c| - 1;
    if n == 0 {
      i := 0;
    } else {
      i := NearestExists(c[..n], d);
      assert forall j | 0 <= j < n :: c[..n][j] == c[j];
      if Distance(c[n].day, d) < Distance(c[i].day, d) { i := n; }
    }
  }

  /** The filled season. */
  function Filled(c: seq<ClearDay>): int -> bool {
    d => Snowy(c, d)
  }

  // ----- steps of the state machine

  lemma AppendedDays(c: seq<ClearDay>, next: ClearDay, d: int)
    requires c != []
    ensures Snowy(c + [next], d) ==
            if d >= Switch(c[|c| - 1].day, next.day) then next.snow else Snowy(c, d)
  {
    assert (c + [next])[..|c|] == c;
  }

  /** From the last clear day on, a season keeps its state. */
  lemma AfterLast(c: seq<ClearDay>, d: int)
    requires Increasing(c) && c != [] && d >= c[|c| - 1].day
    ensures Snowy(c, d) == c[|c| - 1].snow
  {
  }

  /** The fields of the machine at one pixel. */
  datatype State = State(last: int, snow: bool, start: int, onset: int, length: int)

  const INITIAL := State(-1, false, 0, 0, 0)

  function Credited(st: State, mask: bool, first: int, final: int): State {
    if mask && final - first + 1 > st.length then st.(onset := first, length := final - first + 1) else st
  }

  /** The fields after a clear day. */
  function Step(st: State, next: ClearDay): State {
    var w := Switch(st.last, next.day);
    var paid := Credited(st, st.snow && !next.snow, st.start, w - 1);
    State(next.day, next.snow, if next.snow && !st.snow then (if st.last < 0 then 0 else w) else st.start,
          paid.onset, paid.length)
  }

  function StateAfter(c: seq<ClearDay>): State {
    if c == [] then INITIAL else Step(StateAfter(c[..|c| - 1]), c[|c| - 1])
  }

  /** What the fields mean: the last clear day, the open snow period, and the earliest longest period
      before it. */
  ghost predicate Tracks(c: seq<ClearDay>, st: State) {
    if c == [] then st == INITIAL else
      && st.last == c[|c| - 1].day && st.snow == c[|c| - 1].snow
      && if st.snow then
        && 0 <= st.start <= st.last
        && (forall d | st.start <= d :: Snowy(c, d))
        && (st.start == 0 || !Snowy(c, st.start - 1))
        && Longest(Filled(c), st.start, st.onset, st.length)
      else Longest(Filled(c), st.last, st.onset, st.length)
  }

  lemma FirstClear(next: ClearDay)
    requires 0 <= next.day
    ensures Tracks([next], Step(INITIAL, next))
  {
    assert Longest(Filled([next]), 0, 0, 0);
    if !next.snow { LongestPadded(Filled([next]), 0, next.day, 0, 0); }
  }

  /** A clear day in the same state as the last one, or the start of snow. */
  lemma NextWithoutCredit(c: seq<ClearDay>, st: State, next: ClearDay)
    requires c != [] && Increasing(c + [next]) && Tracks(c, st) && (st.snow ==> next.snow)
    ensures Tracks(c + [next], Step(st, next))
  {
    var c', w := c + [next], Switch(st.last, next.day);
    assert Increasing(c) by { assert forall i | 0 <= i < |c| :: c'[i] == c[i]; }
    assert c'[|c| - 1] == c[|c| - 1] && c'[|c|] == next;
    forall d { AppendedDays(c, next, d); }
    if st.snow {
      LongestSame(Filled(c), Filled(c'), st.start, st.onset, st.length);
    } else {
      LongestSame(Filled(c), Filled(c'), st.last, st.onset, st.length);
      forall d | st.last <= d { AfterLast(c, d); }
      LongestPadded(Filled(c'), st.last, if next.snow then w else next.day, st.onset, st.length);
    }
  }

  /** A clear day that ends the open snow period. */
  lemma NextWithCredit(c: seq<ClearDay>, st: State, next: ClearDay)
    requires c != [] && Increasing(c + [next]) && Tracks(c, st) && st.snow && !next.snow
    ensures Tracks(c + [next], Step(st, next))
  {
    var c', w := c + [next], Switch(st.last, next.day);
    assert c'[|c| - 1] == c[|c| - 1];
    forall d { AppendedDays(c, next, d); }
    LongestSame(Filled(c), Filled(c'), st.start, st.onset, st.length);
    LongestCredited(Filled(c'), st.start, w, st.onset, st.length);
    var paid := Step(st, next);
    LongestPadded(Filled(c'), w, next.day, paid.onset, paid.length);
  }

  lemma StepTracks(c: seq<ClearDay>, st: State, next: ClearDay)
    requires Increasing(c + [next]) && Tracks(c, st)
    ensures Tracks(c + [next], Step(st, next))
  {
    if c == [] {
      assert c + [next] == [next];
      assert [next][0] == next;
      FirstClear(next);
    } else if st.snow && !next.snow {
      NextWithCredit(c, st, next);
    } else {
      NextWithoutCredit(c, st, next);
    }
  }

  /** The machine tracks the filled season after every clear day. */
  lemma {:induction false} MachineTracks(c: seq<ClearDay>)
    requires Increasing(c)
    ensures Tracks(c, StateAfter(c))
  {
    if c != [] {
      var before, next := c[..|c| - 1], c[|c| - 1];
      assert before + [next] == c;
      MachineTracks(before);
      StepTracks(before, StateAfter(before), next);
    }
  }

  /** The period that the machine offers at the end of the season, `days` days long. */
  function Closed(st: State, days: int): State {
    Credited(st, st.snow, st.start, days - 1)
  }

  /** The machine ends with the earliest longest snow period of the filled season. */
  lemma MachineFindsLongest(c: seq<ClearDay>, days: int)
    requires Increasing(c) && c != [] && c[|c| - 1].day < days
    ensures var st := Closed(StateAfter(c), days); Longest(Filled(c), days, st.onset, st.length)
  {
    MachineTracks(c);
    var st := StateAfter(c);
    if st.snow {
      LongestCredited(Filled(c), st.start, days, st.onset, st.length);
    } else {
      forall d | st.last <= d { AfterLast(c, d); }
      LongestPadded(Filled(c), st.last, days, st.onset, st.length);
    }
  }

  lemma InOrderAppended(history: seq<Observation>, days: int, o: Observation)
    requires InOrder(history, days) && 0 <= o.day < days
    requires history == [] || history[|history| - 1].day < o.day
    ensures InOrder(history + [o], days)
  {
  }

  lemma ClearDaysAppended(history: seq<Observation>, o: Observation)
    ensures var c, c' := ClearDays(history), ClearDays(history + [o]);
      && c' == (if o.clear then c + [ClearDay(o.day, o.snow)] else c)
      && StateAfter(c') == (if o.clear then Step(StateAfter(c), ClearDay(o.day, o.snow)) else StateAfter(c))
  {
    assert (history + [o])[..|history|] == history;
    var c, next := ClearDays(history), ClearDay(o.day, o.snow);
    assert (c + [next])[..|c|] == c;
  }

  class SnowSeason {
    const days: int
    var day: int
    var last: int
    var snow: bool
    var start: int
    var clear: bool
    var length: int
    var onset: int
    ghost var history: seq<Observation>

    function Fields(): State
      reads this
    {
      State(last, snow, start, onset, length)
    }

    ghost predicate Valid()
      reads this
    {
      && InOrder(history, days)
      && day == (if history == [] then -1 else history[|history| - 1].day)
      && clear == (ClearDays(history) != [])
      && Fields() == StateAfter(ClearDays(history))
    }

    constructor (days: int)
      ensures Valid() && this.days == days && history == []
    {
      this.days := days;
      day, last, snow, start, clear, length, onset := -1, -1, false, 0, false, 0, 0;
      history := [];
    }

    /** Offers the snow period from `first` to `final`, both included. */
    method Credit(mask: bool, first: int, final: int)
      modifies this`length, this`onset
      ensures Fields() == Credited(old(Fields()), mask, first, final)
    {
      if mask && final - first + 1 > length {
        length := final - first + 1;
        onset := first;
      }
    }

    /** One day. A day that does not increase or is outside the season is refused. */
    method Observe(day: int, clear: bool, snow: bool) returns (accepted: bool)
      requires Valid()
      modifies this
      ensures Valid()
      ensures accepted <==> old(this.day) < day < days
      ensures accepted ==> history == old(history) + [Observation(day, clear, snow)]
      ensures !accepted ==> history == old(history)
    {
      if !(this.day < day < days) { return false; }
      ClearDaysAppended(history, Observation(day, clear, snow));
      InOrderAppended(history, days, Observation(day, clear, snow));
      ghost var st := Fields();
      history := history + [Observation(day, clear, snow)];
      this.day := day;
      this.clear := this.clear || clear;
      var fallen := clear && snow;
      var switch := (last + day) / 2 + 1;
      Credit(clear && this.snow && !fallen, start, switch - 1);
      start := if fallen && !this.snow then (if last < 0 then 0 else switch) else start;
      last := if clear then day else last;
      this.snow := if clear then fallen else this.snow;
      assert Fields() == if clear then Step(st, ClearDay(day, snow)) else st;
      return true;
    }

    /** The bytes of the season: of the earliest longest snow period, or no data. */
    method Planes() returns (p: Pair)
      requires Valid()
      modifies this`length, this`onset
      ensures ClearDays(history) == [] ==> p == Sentinel(NO_DATA)
      ensures ClearDays(history) != [] ==>
                && Longest(Filled(ClearDays(history)), days, onset, length)
                && p == Encode(onset, length, days, true)
    {
      if ClearDays(history) != [] {
        ClearDaysInOrder(history, days);
        MachineFindsLongest(ClearDays(history), days);
      }
      Credit(snow, start, days - 1);
      p := Encode(onset, length, days, clear);
    }
  }

  /** The bytes of the earliest longest snow period of the filled season, or no data. */
  ghost predicate IsSeason(days: int, observations: seq<Observation>, p: Pair) {
    var c := ClearDays(observations);
    if c == [] then p == Sentinel(NO_DATA)
    else exists onset, length :: Longest(Filled(c), days, onset, length) && p == Encode(onset, length, days, true)
  }

  /** A whole season: for every increasing list of observations, the bytes are those of the earliest
      longest snow period of the filled season, and no data exactly when no day was clear. */
  method Season(days: int, observations: seq<Observation>) returns (p: Pair)
    requires InOrder(observations, days)
    ensures IsSeason(days, observations, p)
    ensures p == Sentinel(NO_DATA) <==> forall i | 0 <= i < |observations| :: !observations[i].clear
    ensures Coherent(p)
  {
    var season := new SnowSeason(days);
    for i := 0 to |observations|
      invariant season.Valid() && season.days == days
      invariant season.history == observations[..i]
    {
      var o := observations[i];
      assert observations[..i + 1] == observations[..i] + [o];
      var accepted := season.Observe(o.day, o.clear, o.snow);
    }
    assert observations[..|observations|] == observations;
    p := season.Planes();
    NoClearDay(observations);
  }

  /** The meaning fixes the bytes. */
  lemma SeasonIsUnique(days: int, observations: seq<Observation>, p: Pair, q: Pair)
    requires IsSeason(days, observations, p) && IsSeason(days, observations, q)
    ensures p == q
  {
    var c := ClearDays(observations);
    if c != [] {
      var a, k :| Longest(Filled(c), days, a, k) && p == Encode(a, k, days, true);
      var b, l :| Longest(Filled(c), days, b, l) && q == Encode(b, l, days, true);
      LongestIsUnique(Filled(c), days, a, k, b, l);
    }
  }

  lemma {:induction false} NoClearDay(history: seq<Observation>)
    ensures ClearDays(history) == [] <==> forall i | 0 <= i < |history| :: !history[i].clear
  {
    if history != [] { NoClearDay(history[..|history| - 1]); }
  }
}
