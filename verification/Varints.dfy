/** Little-endian base 128 integers, and where they stand in a longer byte string. */
module Varints {
  import opened Powers

  type byte = b: int | 0 <= b < 256

  /** An integer that a reader found, and the place after it. */
  datatype Read = Failed | Read(value: nat, next: nat)

  function Varint(v: nat): (bytes: seq<byte>)
    ensures |bytes| > 0
  {
    if v < 128 then [v] else [v % 128 + 128] + Varint(v / 128)
  }

  // ----- bytes joined with the shifts of a reading loop

  function Shifted(value: nat, k: nat, r: Read): Read {
    match r
    case Failed => Failed
    case Read(v, next) => Read(value + ShiftLeft(v, 7 * k), next)
  }

  /** The byte joins the bits below it. */
  lemma ShiftOr(k: nat, b: nat, value: nat)
    requires value < Pow2(7 * k) && b < 128
    ensures BitOr(value, ShiftLeft(b, 7 * k)) == value + ShiftLeft(b, 7 * k) < Pow2(7 * (k + 1))
  {
    hide BitOr;
    BitOrDisjoint(7 * k, value, b);
    Pow2Add(7 * k, 7);
    assert Pow2(7) == 128;
    ShiftBound(Pow2(7 * k), b, value);
  }

  lemma ShiftBound(p: nat, b: nat, value: nat)
    requires value < p && b < 128
    ensures value + p * b < p * 128
  {
    assert p * b <= p * 127;
  }

  lemma ShiftMore(k: nat, b: nat, value: nat, rest: Read)
    ensures Shifted(value, k, if rest.Failed? then Failed else Read(b + 128 * rest.value, rest.next))
            == Shifted(value + ShiftLeft(b, 7 * k), k + 1, rest)
  {
    Pow2Add(7 * k, 7);
    assert Pow2(7) == 128;
    if rest.Read? { ShiftSum(Pow2(7 * k), b, rest.value); }
  }

  lemma ShiftSum(p: nat, b: nat, v: nat)
    ensures p * (b + 128 * v) == p * b + p * 128 * v
  {
  }

  // ----- parts of a byte string

  predicate At(data: seq<byte>, i: nat, part: seq<byte>) {
    i + |part| <= |data| && data[i..i + |part|] == part
  }

  lemma AtParts(data: seq<byte>, i: nat, a: seq<byte>, b: seq<byte>)
    requires At(data, i, a + b)
    ensures At(data, i, a) && At(data, i + |a|, b)
  {
    assert data[i..i + |a|] == data[i..i + |a + b|][..|a|] == a;
    assert data[i + |a|..i + |a| + |b|] == data[i..i + |a + b|][|a|..] == b;
  }

  lemma AtFirst(data: seq<byte>, i: nat, part: seq<byte>)
    requires At(data, i, part) && part != []
    ensures data[i] == part[0] && At(data, i + 1, part[1..])
  {
    assert data[i] == data[i..i + |part|][0];
    assert data[i + 1..i + |part|] == data[i..i + |part|][1..];
  }

  lemma AtAll(data: seq<byte>)
    ensures At(data, 0, data)
  {
  }
}
