/** The directory of a PMTiles version 3 archive: the column-wise varint decoder of the reader against
    the encoding of section 4 (Directories) of the specification. */
module PMTilesDirectory {
  import opened Wrappers
  import opened Powers
  import opened Seqs
  import opened Varints

  const U64 := 0x1_0000_0000_0000_0000
  const MAX_ENTRIES := 1_000_000

  datatype Entry = Entry(id: int, offset: int, length: int, run: int)

  // ----- one integer

  /** The integers that fit in the bytes from byte k of a varint on. */
  function Limit(k: nat): (l: nat)
    requires k <= 9
    decreases 9 - k
    ensures l > 0
  {
    if k == 9 then 2 else 128 * Limit(k + 1)
  }

  lemma LimitIs64Bits()
    ensures Limit(0) == U64
  {
    assert Limit(6) == 128 * 128 * 128 * 2;
    assert Limit(3) == 128 * 128 * 128 * Limit(6);
    assert Limit(0) == 128 * 128 * 128 * Limit(3);
  }

  /** Byte k of a varint at place i, and the bytes after it. Byte 9 holds one bit. */
  function ReadFrom(data: seq<byte>, i: nat, k: nat): (r: Read)
    requires k <= 9
    decreases 9 - k
    ensures r.Read? ==> i < r.next <= |data| && r.value < Limit(k)
  {
    if i >= |data| || (k == 9 && data[i] >= 2) then Failed
    else if data[i] < 128 then Read(data[i], i + 1)
    else match ReadFrom(data, i + 1, k + 1)
      case Failed => Failed
      case Read(v, next) => Read(data[i] - 128 + 128 * v, next)
  }

  function ReadInteger(data: seq<byte>, i: nat): (r: Read)
    ensures r.Read? ==> i < r.next <= |data| && r.value < U64
  {
    LimitIs64Bits();
    ReadFrom(data, i, 0)
  }

  /** What is left to read at byte k, given the bits below it. */
  function Pending(data: seq<byte>, i: nat, k: nat, value: nat): Read {
    if k >= 10 then Failed else Shifted(value, k, ReadFrom(data, i, k))
  }

  lemma PendingStart(data: seq<byte>, i: nat)
    ensures Pending(data, i, 0, 0) == ReadInteger(data, i)
  {
  }

  lemma PendingFails(data: seq<byte>, i: nat, k: nat, value: nat)
    requires i >= |data| || (k == 9 && data[i] >= 2)
    ensures Pending(data, i, k, value) == Failed
  {
  }

  lemma PendingStep(data: seq<byte>, i: nat, k: nat, value: nat)
    requires k <= 9 && i < |data| && (k == 9 ==> data[i] < 2) && value < Pow2(7 * k)
    ensures var next := BitOr(value, ShiftLeft(data[i] % 128, 7 * k));
      && next < Pow2(7 * (k + 1))
      && Pending(data, i, k, value) == if data[i] < 128 then Read(next, i + 1) else Pending(data, i + 1, k + 1, next)
  {
    hide BitOr, ShiftLeft;
    ShiftOr(k, data[i] % 128, value);
    if data[i] >= 128 {
      ShiftMore(k, data[i] - 128, value, ReadFrom(data, i + 1, k + 1));
    }
  }

  /** The loop of the reader over at most ten bytes. */
  method Integer(data: seq<byte>, start: nat) returns (r: Read)
    ensures r == ReadInteger(data, start)
  {
    hide BitOr, ShiftLeft, Pending, ReadInteger;
    var value: nat, cursor, shift := 0, start, 0;
    ghost var k := 0;
    PendingStart(data, start);
    while shift < 64
      invariant shift == 7 * k && k <= 10 && cursor == start + k
      invariant value < Pow2(7 * k)
      invariant ReadInteger(data, start) == Pending(data, cursor, k, value)
    {
      if cursor >= |data| {
        PendingFails(data, cursor, k, value);
        return Failed;
      }
      var byte := data[cursor];
      if !(shift < 63 || byte < 2) {
        PendingFails(data, cursor, k, value);
        return Failed;
      }
      PendingStep(data, cursor, k, value);
      value := BitOr(value, ShiftLeft(byte % 128, shift));
      cursor := cursor + 1;
      if byte < 128 { return Read(value, cursor); }
      shift, k := shift + 7, k + 1;
    }
    PendingEnds(data, cursor, k, value);
    return Failed;
  }

  lemma PendingEnds(data: seq<byte>, i: nat, k: nat, value: nat)
    requires k >= 10
    ensures Pending(data, i, k, value) == Failed
  {
  }

  // ----- columns

  predicate U64s(values: seq<int>) {
    forall j | 0 <= j < |values| :: 0 <= values[j] < U64
  }

  /** The four columns of a directory. The offsets lean on the lengths before them. */
  datatype Kind = Ids | Runs | Lengths | Offsets(lengths: seq<int>)

  predicate Room(kind: Kind, n: nat) {
    kind.Offsets? ==> n <= |kind.lengths|
  }

  /** One more value of a column from its integer, or none where the source throws: an id that does not
      grow or overflows, an empty entry, and an offset that would follow no entry or overflows. */
  function Append(kind: Kind, values: seq<int>, v: int): (r: Option<seq<int>>)
    requires Room(kind, |values| + 1)
    ensures r.Some? ==> |r.value| == |values| + 1
  {
    var n := |values|;
    match kind
    case Ids =>
      var id := (if n == 0 then 0 else values[n - 1]) + v;
      if (n > 0 && v == 0) || id >= U64 then None else Some(values + [id])
    case Runs => Some(values + [v])
    case Lengths => if v == 0 then None else Some(values + [v])
    case Offsets(lengths) =>
      if v > 0 then Some(values + [v - 1])
      else if n == 0 || values[n - 1] + lengths[n - 1] >= U64 then None
      else Some(values + [values[n - 1] + lengths[n - 1]])
  }

  datatype Decoded = Refused | Decoded(values: seq<int>, next: nat)

  /** The next n integers as the values of a column. */
  function Column(kind: Kind, data: seq<byte>, i: nat, n: nat): (r: Decoded)
    requires Room(kind, n)
    ensures r.Decoded? ==> |r.values| == n
  {
    if n == 0 then Decoded([], i) else
      var before := Column(kind, data, i, n - 1);
      if before.Refused? then Refused else NextValue(kind, data, before.values, before.next)
  }

  function NextValue(kind: Kind, data: seq<byte>, values: seq<int>, i: nat): (r: Decoded)
    requires Room(kind, |values| + 1)
    ensures r.Decoded? ==> |r.values| == |values| + 1
  {
    var v := ReadInteger(data, i);
    if v.Failed? || Append(kind, values, v.value).None? then Refused
    else Decoded(Append(kind, values, v.value).value, v.next)
  }

  lemma {:induction false} RefusedStaysRefused(kind: Kind, data: seq<byte>, i: nat, m: nat, n: nat)
    requires m <= n && Room(kind, n) && Column(kind, data, i, m).Refused?
    ensures Column(kind, data, i, n).Refused?
  {
    if m < n { RefusedStaysRefused(kind, data, i, m, n - 1); }
  }

  lemma ColumnStep(kind: Kind, data: seq<byte>, i: nat, n: nat, values: seq<int>, j: nat)
    requires Room(kind, n + 1) && Column(kind, data, i, n) == Decoded(values, j)
    ensures Column(kind, data, i, n + 1) == NextValue(kind, data, values, j)
  {
  }

  /** The loop over one column. */
  method DecodeColumn(kind: Kind, data: seq<byte>, start: nat, count: nat) returns (r: Decoded)
    requires Room(kind, count)
    ensures r == Column(kind, data, start, count)
  {
    assert Column(kind, data, start, 0) == Decoded([], start);
    hide Column, ReadInteger, Append;
    var values: seq<int>, cursor := [], start;
    for index := 0 to count
      invariant Column(kind, data, start, index) == Decoded(values, cursor) && |values| == index
    {
      ColumnStep(kind, data, start, index, values, cursor);
      var v := Integer(data, cursor);
      if v.Failed? || Append(kind, values, v.value).None? {
        RefusedStaysRefused(kind, data, start, index + 1, count);
        return Refused;
      }
      values, cursor := Append(kind, values, v.value).value, v.next;
    }
    return Decoded(values, cursor);
  }

  // ----- the directory

  function Rows(ids: seq<int>, offsets: seq<int>, lengths: seq<int>, runs: seq<int>): (entries: seq<Entry>)
    requires |ids| == |offsets| == |lengths| == |runs|
    ensures |entries| == |ids|
    ensures forall i | 0 <= i < |ids| :: entries[i] == Entry(ids[i], offsets[i], lengths[i], runs[i])
  {
    seq(|ids|, i requires 0 <= i < |ids| => Entry(ids[i], offsets[i], lengths[i], runs[i]))
  }

  /** The four columns of n entries, which use up the data. */
  function Columns(data: seq<byte>, i: nat, n: nat): Option<seq<Entry>> {
    var ids := Column(Ids, data, i, n);
    if ids.Refused? then None else
    var runs := Column(Runs, data, ids.next, n);
    if runs.Refused? then None else
    var lengths := Column(Lengths, data, runs.next, n);
    if lengths.Refused? then None else
    var offsets := Column(Offsets(lengths.values), data, lengths.next, n);
    if offsets.Refused? || offsets.next != |data| then None
    else Some(Rows(ids.values, offsets.values, lengths.values, runs.values))
  }

  function Parse(data: seq<byte>): Option<seq<Entry>> {
    var count := ReadInteger(data, 0);
    if count.Failed? || count.value == 0 || count.value > MAX_ENTRIES || count.value > |data| / 4 then None
    else Columns(data, count.next, count.value)
  }

  method Directory(data: seq<byte>) returns (r: Option<seq<Entry>>)
    ensures r == Parse(data)
  {
    hide Column, ReadInteger;
    var count := Integer(data, 0);
    if count.Failed? { return None; }
    if count.value == 0 || count.value > MAX_ENTRIES || count.value > |data| / 4 { return None; }
    var ids := DecodeColumn(Ids, data, count.next, count.value);
    if ids.Refused? { return None; }
    var runs := DecodeColumn(Runs, data, ids.next, count.value);
    if runs.Refused? { return None; }
    var lengths := DecodeColumn(Lengths, data, runs.next, count.value);
    if lengths.Refused? { return None; }
    var offsets := DecodeColumn(Offsets(lengths.values), data, lengths.next, count.value);
    if offsets.Refused? || offsets.next != |data| { return None; }
    return Some(Rows(ids.values, offsets.values, lengths.values, runs.values));
  }

  // ----- what an accepted directory is

  predicate Increasing(ids: seq<int>) {
    forall i, j | 0 <= i < j < |ids| :: ids[i] < ids[j]
  }

  predicate Contiguous(offsets: seq<int>, lengths: seq<int>, i: nat)
    requires i < |offsets| <= |lengths|
  {
    i > 0 && offsets[i] == offsets[i - 1] + lengths[i - 1]
  }

  /** The values that a column can hold. */
  predicate Sound(kind: Kind, values: seq<int>)
    requires Room(kind, |values|)
  {
    && U64s(values)
    && match kind
       case Ids => Increasing(values)
       case Runs => true
       case Lengths => forall i | 0 <= i < |values| :: values[i] > 0
       case Offsets(lengths) =>
         forall i | 0 <= i < |values| :: Contiguous(values, lengths, i) || values[i] + 1 < U64
  }

  predicate SoundKind(kind: Kind) {
    kind.Offsets? ==> forall i | 0 <= i < |kind.lengths| :: kind.lengths[i] > 0
  }

  lemma AppendIsSound(kind: Kind, values: seq<int>, v: int)
    requires SoundKind(kind) && Room(kind, |values| + 1) && Sound(kind, values) && 0 <= v < U64
    requires Append(kind, values, v).Some?
    ensures Sound(kind, Append(kind, values, v).value)
  {
    var all := Append(kind, values, v).value;
    if kind.Offsets? {
      forall i | 0 <= i < |all|
        ensures Contiguous(all, kind.lengths, i) || all[i] + 1 < U64
      {
        assert i < |values| ==> Contiguous(values, kind.lengths, i) || values[i] + 1 < U64;
      }
    }
  }

  lemma {:induction false} ColumnIsSound(kind: Kind, data: seq<byte>, i: nat, n: nat)
    requires SoundKind(kind) && Room(kind, n) && Column(kind, data, i, n).Decoded?
    ensures Sound(kind, Column(kind, data, i, n).values)
  {
    hide Append, Sound;
    if n == 0 {
      EmptyIsSound(kind);
    } else {
      ColumnIsSound(kind, data, i, n - 1);
      var before := Column(kind, data, i, n - 1);
      AppendIsSound(kind, before.values, ReadInteger(data, before.next).value);
    }
  }

  lemma EmptyIsSound(kind: Kind)
    ensures Sound(kind, [])
  {
  }

  predicate Sorted(entries: seq<Entry>) {
    forall i, j | 0 <= i < j < |entries| :: entries[i].id < entries[j].id
  }

  function IdsOf(entries: seq<Entry>): (r: seq<int>)
    ensures |r| == |entries|
  {
    seq(|entries|, i requires 0 <= i < |entries| => entries[i].id)
  }

  function OffsetsOf(entries: seq<Entry>): (r: seq<int>)
    ensures |r| == |entries|
  {
    seq(|entries|, i requires 0 <= i < |entries| => entries[i].offset)
  }

  function RunsOf(entries: seq<Entry>): (r: seq<int>)
    ensures |r| == |entries|
  {
    seq(|entries|, i requires 0 <= i < |entries| => entries[i].run)
  }

  function LengthsOf(entries: seq<Entry>): (r: seq<int>)
    ensures |r| == |entries|
  {
    seq(|entries|, i requires 0 <= i < |entries| => entries[i].length)
  }

  /** The entry lists that the format can hold. */
  predicate Encodable(entries: seq<Entry>) {
    && 1 <= |entries| <= MAX_ENTRIES
    && Sound(Ids, IdsOf(entries)) && Sound(Runs, RunsOf(entries)) && Sound(Lengths, LengthsOf(entries))
    && Sound(Offsets(LengthsOf(entries)), OffsetsOf(entries))
  }

  lemma ColumnsOfRows(ids: seq<int>, offsets: seq<int>, lengths: seq<int>, runs: seq<int>)
    requires |ids| == |offsets| == |lengths| == |runs|
    ensures var entries := Rows(ids, offsets, lengths, runs);
      IdsOf(entries) == ids && OffsetsOf(entries) == offsets && LengthsOf(entries) == lengths && RunsOf(entries) == runs
  {
  }

  lemma RowsOfColumns(entries: seq<Entry>)
    ensures Rows(IdsOf(entries), OffsetsOf(entries), LengthsOf(entries), RunsOf(entries)) == entries
  {
  }

  /** Every accepted directory has strictly increasing ids, no empty entry and no 64-bit overflow. */
  lemma ParsedIsEncodable(data: seq<byte>)
    requires Parse(data).Some?
    ensures Encodable(Parse(data).value) && Sorted(Parse(data).value)
  {
    SortedIds(Parse(data).value);
    hide Column, ReadInteger, Rows, Sound;
    var count := ReadInteger(data, 0);
    var n := count.value;
    var ids := Column(Ids, data, count.next, n);
    var runs := Column(Runs, data, ids.next, n);
    var lengths := Column(Lengths, data, runs.next, n);
    var offsets := Column(Offsets(lengths.values), data, lengths.next, n);
    ColumnIsSound(Ids, data, count.next, n);
    ColumnIsSound(Runs, data, ids.next, n);
    ColumnIsSound(Lengths, data, runs.next, n);
    SoundLengths(lengths.values);
    ColumnIsSound(Offsets(lengths.values), data, lengths.next, n);
    ColumnsOfRows(ids.values, offsets.values, lengths.values, runs.values);
  }

  lemma SoundLengths(lengths: seq<int>)
    requires Sound(Lengths, lengths)
    ensures SoundKind(Offsets(lengths))
  {
  }

  lemma SortedIds(entries: seq<Entry>)
    ensures Sound(Ids, IdsOf(entries)) ==> Sorted(entries)
  {
    assert forall i | 0 <= i < |entries| :: IdsOf(entries)[i] == entries[i].id;
  }

  // ----- the encoding of the specification

  /** The integer of the last value of a column: the difference of two ids, the value itself, and for an
      offset 0 when it is contiguous with the entry before, else the offset plus 1. */
  function Code(kind: Kind, values: seq<int>): int
    requires values != [] && Room(kind, |values|)
  {
    var n := |values| - 1;
    match kind
    case Ids => values[n] - if n == 0 then 0 else values[n - 1]
    case Runs => values[n]
    case Lengths => values[n]
    case Offsets(lengths) => if Contiguous(values, lengths, n) then 0 else values[n] + 1
  }

  /** The bytes of a column. */
  function Bytes(kind: Kind, values: seq<int>): seq<byte>
    requires Room(kind, |values|) && Sound(kind, values)
  {
    if values == [] then [] else
      var n := |values| - 1;
      SoundPrefix(kind, values);
      CodeRestores(kind, values);
      Bytes(kind, values[..n]) + Varint(Code(kind, values))
  }

  lemma SoundPrefix(kind: Kind, values: seq<int>)
    requires values != [] && Room(kind, |values|) && Sound(kind, values)
    ensures Sound(kind, values[..|values| - 1])
  {
    if kind.Offsets? {
      var n := |values| - 1;
      forall i | 0 <= i < n
        ensures Contiguous(values[..n], kind.lengths, i) || values[..n][i] + 1 < U64
      {
        assert Contiguous(values, kind.lengths, i) || values[i] + 1 < U64;
      }
    }
  }

  /** Appending the integer of the last value restores the column. */
  lemma CodeRestores(kind: Kind, values: seq<int>)
    requires values != [] && Room(kind, |values|) && Sound(kind, values)
    ensures 0 <= Code(kind, values) < U64
    ensures Append(kind, values[..|values| - 1], Code(kind, values)) == Some(values)
  {
    LastIsSound(kind, values);
    var n := |values| - 1;
    Snoc(values, n + 1);
    Whole(values);
    assert n > 0 ==> values[..n][n - 1] == values[n - 1];
    hide Sound;
  }

  /** What soundness says of the last value. */
  lemma LastIsSound(kind: Kind, values: seq<int>)
    requires values != [] && Room(kind, |values|) && Sound(kind, values)
    ensures var n := |values| - 1;
      && 0 <= values[n] < U64 && (n > 0 ==> 0 <= values[n - 1])
      && (kind.Ids? && n > 0 ==> values[n - 1] < values[n])
      && (kind.Lengths? ==> values[n] > 0)
      && (kind.Offsets? ==> Contiguous(values, kind.lengths, n) || values[n] + 1 < U64)
  {
  }

  /** The four columns, one after another. */
  function Body(entries: seq<Entry>): seq<byte>
    requires Encodable(entries)
  {
    Bytes(Ids, IdsOf(entries)) + Bytes(Runs, RunsOf(entries)) + Bytes(Lengths, LengthsOf(entries))
    + Bytes(Offsets(LengthsOf(entries)), OffsetsOf(entries))
  }

  function Encode(entries: seq<Entry>): seq<byte>
    requires Encodable(entries)
  {
    Varint(|entries|) + Body(entries)
  }

  // ----- the round trip

  lemma {:induction false} ReadVarint(data: seq<byte>, i: nat, k: nat, v: nat)
    requires k <= 9 && v < Limit(k) && At(data, i, Varint(v))
    ensures ReadFrom(data, i, k) == Read(v, i + |Varint(v)|)
    decreases v
  {
    AtFirst(data, i, Varint(v));
    if v >= 128 {
      assert Varint(v)[1..] == Varint(v / 128);
      ReadVarint(data, i + 1, k + 1, v / 128);
    }
  }

  lemma ReadU64(data: seq<byte>, i: nat, v: nat)
    requires v < U64 && At(data, i, Varint(v))
    ensures ReadInteger(data, i) == Read(v, i + |Varint(v)|)
  {
    LimitIs64Bits();
    ReadVarint(data, i, 0, v);
  }

  lemma {:induction false} ReadBytes(kind: Kind, data: seq<byte>, i: nat, values: seq<int>)
    requires Room(kind, |values|) && Sound(kind, values) && At(data, i, Bytes(kind, values))
    ensures Column(kind, data, i, |values|) == Decoded(values, i + |Bytes(kind, values)|)
    ensures |Bytes(kind, values)| >= |values|
  {
    hide At, ReadInteger, Append, Code, Varint, Sound;
    if values != [] {
      var n := |values| - 1;
      SoundPrefix(kind, values);
      CodeRestores(kind, values);
      var before, code := Bytes(kind, values[..n]), Code(kind, values);
      AtParts(data, i, before, Varint(code));
      ReadBytes(kind, data, i, values[..n]);
      ReadU64(data, i + |before|, code);
      ColumnStep(kind, data, i, n, values[..n], i + |before|);
    }
  }

  lemma ReadColumns(entries: seq<Entry>, data: seq<byte>, i: nat)
    requires Encodable(entries)
    requires At(data, i, Body(entries)) && i + |Body(entries)| == |data|
    ensures Columns(data, i, |entries|) == Some(entries) && |entries| <= (|data| - i) / 4
  {
    hide At, Bytes, Column, Rows, Sound;
    var ids, runs, lengths, offsets := IdsOf(entries), RunsOf(entries), LengthsOf(entries), OffsetsOf(entries);
    var a, b, c, d := Bytes(Ids, ids), Bytes(Runs, runs), Bytes(Lengths, lengths), Bytes(Offsets(lengths), offsets);
    AtParts(data, i, a + b + c, d);
    AtParts(data, i, a + b, c);
    AtParts(data, i, a, b);
    ReadBytes(Ids, data, i, ids);
    ReadBytes(Runs, data, i + |a|, runs);
    ReadBytes(Lengths, data, i + |a| + |b|, lengths);
    ReadBytes(Offsets(lengths), data, i + |a| + |b| + |c|, offsets);
    RowsOfColumns(entries);
  }

  /** Decoding the encoding of the specification returns the list. */
  lemma RoundTrip(entries: seq<Entry>)
    requires Encodable(entries)
    ensures Parse(Encode(entries)) == Some(entries)
  {
    hide At, Body, Columns, Varint, ReadInteger;
    var data, head := Encode(entries), Varint(|entries|);
    AtAll(data);
    AtParts(data, 0, head, Body(entries));
    ReadU64(data, 0, |entries|);
    ReadColumns(entries, data, |head|);
  }

  /** The entry lists that the decoder can give are exactly the encodable ones. */
  lemma DecoderRange(entries: seq<Entry>)
    ensures Encodable(entries) <==> exists data: seq<byte> :: Parse(data) == Some(entries)
  {
    hide Encodable, Parse, Encode;
    if Encodable(entries) { RoundTrip(entries); }
    forall data: seq<byte> | Parse(data) == Some(entries)
      ensures Encodable(entries)
    {
      ParsedIsEncodable(data);
    }
  }
}
