/** The protobuf reader and writer of the vector tile bakes. */
module Protobuf {
  import opened Wrappers
  import opened Powers
  import opened Varints

  // ----- integers

  /** The integer at a place; a missing byte is an error. */
  function ReadAt(data: seq<byte>, i: nat): (r: Read)
    decreases |data| - i
    ensures r.Read? ==> i < r.next <= |data|
  {
    if i >= |data| then Failed
    else if data[i] < 128 then Read(data[i], i + 1)
    else match ReadAt(data, i + 1)
      case Failed => Failed
      case Read(v, next) => Read(data[i] - 128 + 128 * v, next)
  }

  /** Reading is the inverse of writing, for every integer and wherever its bytes stand. */
  lemma {:induction false} ReadWritten(data: seq<byte>, i: nat, v: nat)
    requires At(data, i, Varint(v))
    ensures ReadAt(data, i) == Read(v, i + |Varint(v)|)
    decreases v
  {
    AtFirst(data, i, Varint(v));
    if v >= 128 {
      assert Varint(v)[1..] == Varint(v / 128);
      ReadWritten(data, i + 1, v / 128);
    }
  }

  lemma ReadStep(data: seq<byte>, i: nat, k: nat, value: nat)
    requires i < |data| && value < Pow2(7 * k)
    ensures var next := BitOr(value, ShiftLeft(data[i] % 128, 7 * k));
      && next < Pow2(7 * (k + 1))
      && Shifted(value, k, ReadAt(data, i))
         == if data[i] < 128 then Read(next, i + 1) else Shifted(next, k + 1, ReadAt(data, i + 1))
  {
    hide BitOr, ShiftLeft;
    ShiftOr(k, data[i] % 128, value);
    if data[i] >= 128 { ShiftMore(k, data[i] - 128, value, ReadAt(data, i + 1)); }
  }

  /** The reading loop. */
  method ReadVarint(data: seq<byte>, start: nat) returns (r: Read)
    ensures r == ReadAt(data, start)
  {
    hide BitOr, ShiftLeft;
    var value: nat, i, shift := 0, start, 0;
    ghost var k := 0;
    assert Shifted(0, 0, ReadAt(data, start)) == ReadAt(data, start) by { ShiftNothing(ReadAt(data, start)); }
    while true
      invariant shift == 7 * k && i == start + k && value < Pow2(7 * k)
      invariant Shifted(value, k, ReadAt(data, i)) == ReadAt(data, start)
      decreases |data| - i
    {
      if i >= |data| { return Failed; }
      ReadStep(data, i, k, value);
      value := BitOr(value, ShiftLeft(data[i] % 128, shift));
      i := i + 1;
      if data[i - 1] < 0x80 { return Read(value, i); }
      shift, k := shift + 7, k + 1;
    }
  }

  lemma ShiftNothing(r: Read)
    ensures Shifted(0, 0, r) == r
  {
  }

  /** The writing loop. */
  method WriteVarint(start: nat) returns (out: seq<byte>)
    ensures out == Varint(start)
  {
    out := [];
    var value := start;
    while value > 0x7F
      invariant out + Varint(value) == Varint(start)
    {
      out := out + [value % 128 + 0x80];
      value := value / 128;
    }
    out := out + [value];
  }

  // ----- signed integers

  function Zigzag(v: int): (r: nat) {
    if v >= 0 then 2 * v else 2 * -v - 1
  }

  /** Exclusive or of two's complement integers of any width. */
  function Xor(a: int, b: int): int
    decreases if a < 0 then -a else a, if b < 0 then -b else b
  {
    if a == 0 then b
    else if a == -1 then -b - 1
    else 2 * Xor(a / 2, b / 2) + (a + b) % 2
  }

  function Unzigzag(v: nat): int {
    Xor(v / 2, -(v % 2))
  }

  lemma {:induction false} XorSign(a: int)
    requires a >= 0
    ensures Xor(a, 0) == a && Xor(a, -1) == -a - 1
  {
    XorStep(a, 0);
    XorStep(a, -1);
    hide Xor;
    if a > 0 {
      XorSign(a / 2);
      assert 0 / 2 == 0 && -1 / 2 == -1;
    }
  }

  lemma XorStep(a: int, b: int)
    requires a >= 0
    ensures Xor(a, b) == if a == 0 then b else 2 * Xor(a / 2, b / 2) + (a + b) % 2
  {
  }

  /** The two are inverse bijections of the integers and the naturals. */
  lemma ZigzagInverts(v: int, n: nat)
    ensures Unzigzag(Zigzag(v)) == v
    ensures Zigzag(Unzigzag(n)) == n
  {
    XorSign(Zigzag(v) / 2);
    XorSign(n / 2);
    hide Xor;
  }

  // ----- packed integers

  function Join(values: seq<nat>): seq<byte> {
    if values == [] then [] else Varint(values[0]) + Join(values[1..])
  }

  function PackedAt(data: seq<byte>, i: nat): (r: Option<seq<nat>>)
    decreases |data| - i
  {
    if i >= |data| then Some([]) else
      match ReadAt(data, i)
      case Failed => None
      case Read(v, next) => Prepended([v], PackedAt(data, next))
  }

  function Prepended<T>(head: seq<T>, rest: Option<seq<T>>): Option<seq<T>> {
    if rest.None? then None else Some(head + rest.value)
  }

  lemma PrependedTwice<T>(a: seq<T>, b: seq<T>, rest: Option<seq<T>>)
    ensures Prepended(a + b, rest) == Prepended(a, Prepended(b, rest))
  {
    assert rest.Some? ==> a + b + rest.value == a + (b + rest.value);
  }

  lemma PrependedNothing<T>(rest: Option<seq<T>>)
    ensures Prepended([], rest) == rest
  {
    assert rest.Some? ==> [] + rest.value == rest.value;
  }

  method Packed(data: seq<byte>) returns (r: Option<seq<nat>>)
    ensures r == PackedAt(data, 0)
  {
    var i, values := 0, [];
    PrependedNothing(PackedAt(data, 0));
    while i < |data|
      invariant PackedAt(data, 0) == Prepended(values, PackedAt(data, i))
      decreases |data| - i
    {
      var read := ReadVarint(data, i);
      if read.Failed? { return None; }
      PrependedTwice(values, [read.value], PackedAt(data, read.next));
      i := read.next;
      values := values + [read.value];
    }
    assert values + [] == values;
    return Some(values);
  }

  lemma {:induction false} PackedJoined(data: seq<byte>, i: nat, values: seq<nat>)
    requires At(data, i, Join(values)) && i + |Join(values)| == |data|
    ensures PackedAt(data, i) == Some(values)
    decreases |values|
  {
    if values != [] {
      var head, rest := Varint(values[0]), Join(values[1..]);
      AtParts(data, i, head, rest);
      ReadWritten(data, i, values[0]);
      PackedJoined(data, i + |head|, values[1..]);
      assert [values[0]] + values[1..] == values;
      hide Varint, At;
    }
  }

  lemma PackedRoundTrip(values: seq<nat>)
    ensures PackedAt(Join(values), 0) == Some(values)
  {
    AtAll(Join(values));
    PackedJoined(Join(values), 0, values);
  }

  // ----- fields

  /** What the reader gives for a field; it skips the payload of a fixed-width field. */
  datatype Value = Number(n: nat) | Payload(data: seq<byte>) | Skipped

  datatype Field = Field(number: nat, value: Value)

  datatype Step = Broken | Step(field: Field, next: nat)

  /** A slice as Python takes it: an end beyond the data is cut. */
  function Slice(data: seq<byte>, i: nat, length: nat): seq<byte> {
    if i >= |data| then [] else if i + length <= |data| then data[i..i + length] else data[i..]
  }

  /** One field: a broken integer or an unknown wire type is an error. */
  function FieldAt(data: seq<byte>, i: nat): (r: Step)
    ensures r.Step? ==> r.next > i
  {
    match ReadAt(data, i)
    case Failed => Broken
    case Read(key, next) => ValueAt(data, next, key / 8, key % 8)
  }

  function ValueAt(data: seq<byte>, i: nat, number: nat, wire: nat): (r: Step)
    ensures r.Step? ==> r.next >= i
  {
    if wire == 0 then
      match ReadAt(data, i)
      case Failed => Broken
      case Read(v, next) => Step(Field(number, Number(v)), next)
    else if wire == 2 then
      match ReadAt(data, i)
      case Failed => Broken
      case Read(length, next) => Step(Field(number, Payload(Slice(data, next, length))), next + length)
    else if wire == 1 || wire == 5 then
      Step(Field(number, Skipped), i + if wire == 1 then 8 else 4)
    else Broken
  }

  /** The fields that the reader yields, and whether it reaches the end without an error. */
  datatype Yielded = Yielded(fields: seq<Field>, whole: bool)

  function FieldsAt(data: seq<byte>, i: nat): Yielded
    decreases |data| - i
  {
    if i >= |data| then Yielded([], true) else
      match FieldAt(data, i)
      case Broken => Yielded([], false)
      case Step(f, next) => After([f], FieldsAt(data, next))
  }

  function FieldsOf(data: seq<byte>): Yielded {
    FieldsAt(data, 0)
  }

  function After(head: seq<Field>, rest: Yielded): Yielded {
    Yielded(head + rest.fields, rest.whole)
  }

  lemma AfterTwice(a: seq<Field>, b: seq<Field>, rest: Yielded)
    ensures After(a + b, rest) == After(a, After(b, rest))
  {
    assert a + b + rest.fields == a + (b + rest.fields);
  }

  lemma AfterNothing(rest: Yielded)
    ensures After([], rest) == rest
  {
  }

  /** The loop of the field reader. */
  method Fields(data: seq<byte>) returns (r: Yielded)
    ensures r == FieldsOf(data)
  {
    var i, out := 0, [];
    AfterNothing(FieldsAt(data, 0));
    while i < |data|
      invariant FieldsOf(data) == After(out, FieldsAt(data, i))
      decreases |data| - i
    {
      var step := NextField(data, i);
      if step.Broken? { return Yielded(out, false); }
      AfterTwice(out, [step.field], FieldsAt(data, step.next));
      i := step.next;
      out := out + [step.field];
    }
    return Yielded(out, true);
  }

  method NextField(data: seq<byte>, start: nat) returns (r: Step)
    ensures r == FieldAt(data, start)
  {
    var key := ReadVarint(data, start);
    if key.Failed? { return Broken; }
    var number, i := key.value / 8, key.next;
    if key.value % 8 == 0 {
      var value := ReadVarint(data, i);
      if value.Failed? { return Broken; }
      return Step(Field(number, Number(value.value)), value.next);
    } else if key.value % 8 == 2 {
      var length := ReadVarint(data, i);
      if length.Failed? { return Broken; }
      i := length.next;
      return Step(Field(number, Payload(Slice(data, i, length.value))), i + length.value);
    } else if key.value % 8 == 1 {
      return Step(Field(number, Skipped), i + 8);
    } else if key.value % 8 == 5 {
      return Step(Field(number, Skipped), i + 4);
    }
    return Broken;
  }

  // ----- writing

  /** One field as the source writes it; it writes no fixed-width field. */
  function Encode(f: Field): seq<byte> {
    match f.value
    case Number(n) => Varint(ShiftLeft(f.number, 3)) + Varint(n)
    case Payload(data) => Varint(BitOr(2, ShiftLeft(f.number, 3))) + Varint(|data|) + data
    case Skipped => []
  }

  function EncodeAll(fields: seq<Field>): seq<byte> {
    if fields == [] then [] else Encode(fields[0]) + EncodeAll(fields[1..])
  }

  lemma {:induction false} EncodeAppended(a: seq<Field>, b: seq<Field>)
    ensures EncodeAll(a + b) == EncodeAll(a) + EncodeAll(b)
  {
    hide Encode;
    if a == [] {
      assert a + b == b;
    } else {
      EncodeAppended(a[1..], b);
      assert (a + b)[1..] == a[1..] + b;
      Associated(Encode(a[0]), EncodeAll(a[1..]), EncodeAll(b));
    }
  }

  lemma Associated<T>(a: seq<T>, b: seq<T>, c: seq<T>)
    ensures a + b + c == a + (b + c)
  {
  }

  lemma KeyBits(number: nat)
    ensures ShiftLeft(number, 3) == 8 * number && BitOr(2, ShiftLeft(number, 3)) == 8 * number + 2
  {
    assert Pow2(3) == 8;
    BitOrDisjoint(3, 2, number);
    hide BitOr;
  }

  lemma FieldWritten(data: seq<byte>, i: nat, f: Field)
    requires At(data, i, Encode(f)) && f.value != Skipped
    ensures FieldAt(data, i) == Step(f, i + |Encode(f)|)
  {
    KeyBits(f.number);
    hide BitOr, ShiftLeft, Varint, At, FieldAt;
    match f.value
    case Number(n) => NumberWritten(data, i, f.number, n);
    case Payload(payload) => PayloadWritten(data, i, f.number, payload);
  }

  lemma NumberWritten(data: seq<byte>, i: nat, number: nat, n: nat)
    requires At(data, i, Varint(8 * number) + Varint(n))
    ensures FieldAt(data, i) == Step(Field(number, Number(n)), i + |Varint(8 * number) + Varint(n)|)
  {
    hide Varint, At;
    KeyParts(number, 0);
    var head := Varint(8 * number);
    AtParts(data, i, head, Varint(n));
    ReadWritten(data, i, 8 * number);
    ReadWritten(data, i + |head|, n);
  }

  lemma KeyParts(number: nat, wire: nat)
    requires wire < 8
    ensures (8 * number + wire) / 8 == number && (8 * number + wire) % 8 == wire
  {
  }

  lemma PayloadWritten(data: seq<byte>, i: nat, number: nat, payload: seq<byte>)
    requires At(data, i, Varint(8 * number + 2) + Varint(|payload|) + payload)
    ensures FieldAt(data, i)
         == Step(Field(number, Payload(payload)), i + |Varint(8 * number + 2) + Varint(|payload|) + payload|)
  {
    hide Varint, At, Slice;
    KeyParts(number, 2);
    var head, size := Varint(8 * number + 2), Varint(|payload|);
    AtParts(data, i, head + size, payload);
    AtParts(data, i, head, size);
    ReadWritten(data, i, 8 * number + 2);
    ReadWritten(data, i + |head|, |payload|);
    SliceAt(data, i + |head| + |size|, payload);
  }

  lemma SliceAt(data: seq<byte>, i: nat, part: seq<byte>)
    requires At(data, i, part)
    ensures Slice(data, i, |part|) == part
  {
  }

  ghost predicate Writable(fields: seq<Field>) {
    forall f | f in fields :: f.value != Skipped
  }

  lemma {:induction false} FieldsWritten(data: seq<byte>, i: nat, fields: seq<Field>)
    requires At(data, i, EncodeAll(fields)) && i + |EncodeAll(fields)| == |data| && Writable(fields)
    ensures FieldsAt(data, i) == Yielded(fields, true)
    decreases |fields|
  {
    hide Encode, At, FieldAt;
    if fields != [] {
      var f, rest := fields[0], fields[1..];
      AtParts(data, i, Encode(f), EncodeAll(rest));
      FieldWritten(data, i, f);
      FieldsWritten(data, i + |Encode(f)|, rest);
      assert [f] + rest == fields;
    }
  }

  /** The reader yields exactly the fields that were written. */
  lemma FieldsRoundTrip(fields: seq<Field>)
    requires Writable(fields)
    ensures FieldsOf(EncodeAll(fields)) == Yielded(fields, true)
  {
    AtAll(EncodeAll(fields));
    FieldsWritten(EncodeAll(fields), 0, fields);
  }
}
