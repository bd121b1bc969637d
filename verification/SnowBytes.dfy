/** The byte pair of a pixel and a season: onset and melt-out day steps, or one sentinel twice. */
module SnowBytes {

  const NO_SNOW := 253
  const FULL := 254
  const NO_DATA := 255
  const LAST_STEP := 182

  datatype Pair = Pair(onset: int, meltout: int)

  predicate Dated(p: Pair) {
    0 <= p.onset <= p.meltout <= LAST_STEP
  }

  function Sentinel(v: int): Pair {
    Pair(v, v)
  }

  /** What every stage keeps: a dated pair, or one of the three sentinels in both bytes. */
  predicate Coherent(p: Pair) {
    Dated(p) || p == Sentinel(NO_SNOW) || p == Sentinel(FULL) || p == Sentinel(NO_DATA)
  }

  function Clip(v: int, low: int, high: int): int {
    if v < low then low else if v > high then high else v
  }

  /** The bytes of the longest snow period of a season, from its first day and its length. */
  function Encode(onset: int, length: int, days: int, data: bool): (p: Pair)
    ensures length >= 0 ==> Coherent(p)
    ensures p == Sentinel(NO_DATA) <==> !data
    ensures p == Sentinel(FULL) <==> data && length >= days
    ensures p == Sentinel(NO_SNOW) <==> data && length < days && length == 0
  {
    if !data then Sentinel(NO_DATA)
    else if length >= days then Sentinel(FULL)
    else if length == 0 then Sentinel(NO_SNOW)
    else
      Pair(Clip(onset, 0, 2 * LAST_STEP) / 2, Clip(onset + length - 1, 0, 2 * LAST_STEP) / 2)
  }

  /** A dated pair of a season of at most 366 days holds exactly the two-day steps that its period
      touches, except that day 365 counts to step 182. */
  lemma EncodeKeepsDays(onset: int, length: int, days: int, day: int)
    requires 0 <= onset && 0 < length < days <= 366 && onset + length <= days
    ensures var p := Encode(onset, length, days, true);
      && (onset <= day < onset + length ==> p.onset <= Clip(day / 2, 0, LAST_STEP) <= p.meltout)
      && (0 <= day && p.onset <= day / 2 <= p.meltout ==> onset - 1 <= day <= onset + length)
  {
  }

  /** The bytes of a dated period: its first and its last day, halved, up to step 182. */
  lemma EncodeDated(onset: int, length: int, days: int)
    requires 0 <= onset && 0 < length < days
    ensures var p, last := Encode(onset, length, days, true), onset + length - 1;
      && p.onset == (if onset < 364 then onset / 2 else 182)
      && p.meltout == (if last < 364 then last / 2 else 182)
  {
  }
}
