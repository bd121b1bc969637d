/** Powers of two and four, and the bit operators of two's complement integers that the tile
    numbering uses. */
module Powers {

  function Pow2(n: nat): (p: nat)
    ensures p > 0
  {
    if n == 0 then 1 else 2 * Pow2(n - 1)
  }

  function Pow4(n: nat): (p: nat)
    ensures p > 0
  {
    if n == 0 then 1 else 4 * Pow4(n - 1)
  }

  lemma {:induction false} Pow4IsSquare(n: nat)
    ensures Pow4(n) == Pow2(n) * Pow2(n)
  {
    if n > 0 { Pow4IsSquare(n - 1); }
  }

  lemma {:induction false} Pow2OfDouble(n: nat)
    ensures Pow2(2 * n) == Pow4(n)
  {
    if n > 0 {
      Pow2OfDouble(n - 1);
      assert Pow2(2 * n) == 2 * Pow2(2 * n - 1) == 4 * Pow2(2 * n - 2);
    }
  }

  lemma {:induction false} Pow2Add(m: nat, n: nat)
    ensures Pow2(m + n) == Pow2(m) * Pow2(n)
  {
    if m > 0 { Pow2Add(m - 1, n); }
  }

  lemma {:induction false} Pow4Add(m: nat, n: nat)
    ensures Pow4(m + n) == Pow4(m) * Pow4(n)
  {
    if m > 0 { Pow4Add(m - 1, n); }
  }

  /** `mask & value` for a non-negative mask; `value` may be negative, in two's complement. */
  function BitAnd(mask: nat, value: int): (r: nat)
    decreases mask
  {
    if mask == 0 then 0 else 2 * BitAnd(mask / 2, value / 2) + (mask % 2) * (value % 2)
  }

  /** `a ^ b` of two non-negative integers. */
  function BitXor(a: nat, b: nat): (r: nat)
    decreases a + b
  {
    if a == 0 && b == 0 then 0 else 2 * BitXor(a / 2, b / 2) + (a % 2 + b % 2) % 2
  }

  /** `a << k`. */
  function ShiftLeft(a: nat, k: nat): nat {
    Pow2(k) * a
  }

  /** `a | b` of two non-negative integers. */
  function BitOr(a: nat, b: nat): (r: nat)
    decreases a + b
  {
    if a == 0 && b == 0 then 0 else 2 * BitOr(a / 2, b / 2) + (if a % 2 + b % 2 > 0 then 1 else 0)
  }

  lemma {:induction false} BitOrZero(a: nat)
    ensures BitOr(a, 0) == a
  {
    if a > 0 { BitOrZero(a / 2); }
  }

  /** Bits that do not overlap add. */
  lemma {:induction false} BitOrDisjoint(k: nat, a: nat, u: nat)
    requires a < Pow2(k)
    ensures BitOr(a, Pow2(k) * u) == a + Pow2(k) * u
  {
    if k == 0 {
      assert Pow2(0) * u == u;
      BitOrZeroLeft(u);
    } else {
      BitOrDisjoint(k - 1, a / 2, u);
      MulDouble(Pow2(k - 1), u);
      var b := Pow2(k) * u;
      assert b % 2 == 0 && b / 2 == Pow2(k - 1) * u;
    }
  }

  lemma {:induction false} BitOrZeroLeft(a: nat)
    ensures BitOr(0, a) == a
  {
    if a > 0 { BitOrZeroLeft(a / 2); }
  }

  /** Masking with one bit gives that bit in its place. */
  lemma {:induction false} BitAndPow2(a: nat, value: int)
    ensures BitAnd(Pow2(a), value) == Pow2(a) * (value / Pow2(a) % 2)
  {
    if a == 0 {
      assert BitAnd(1, value) == 2 * BitAnd(0, value / 2) + value % 2;
    } else {
      var s, b := Pow2(a - 1), value / 2 / Pow2(a - 1) % 2;
      BitAndPow2(a - 1, value / 2);
      DivTwice(value, s);
      MulDouble(s, b);
      assert Pow2(a) % 2 == 0 && Pow2(a) / 2 == s;
      assert BitAnd(Pow2(a), value) == 2 * BitAnd(s, value / 2) + 0 * (value % 2);
    }
  }

  /** Exclusive or commutes with a shift. */
  lemma {:induction false} BitXorShift(a: nat, u: nat, v: nat)
    ensures BitXor(Pow2(a) * u, Pow2(a) * v) == Pow2(a) * BitXor(u, v)
  {
    if a > 0 {
      var s := Pow2(a - 1);
      MulDouble(s, u);
      MulDouble(s, v);
      MulDouble(s, BitXor(u, v));
      BitXorShift(a - 1, u, v);
      BitXorDouble(s * u, s * v);
    }
  }

  lemma MulDouble(s: nat, u: nat)
    ensures 2 * s * u == 2 * (s * u) && s * u >= 0
  {
  }

  lemma BitXorDouble(u: nat, v: nat)
    ensures BitXor(2 * u, 2 * v) == 2 * BitXor(u, v)
  {
    assert (2 * u) / 2 == u && (2 * v) / 2 == v;
  }

  lemma DivTwice(x: int, s: int)
    requires s > 0
    ensures x / (2 * s) == (x / 2) / s
  {
    var q, r := x / 2, x % 2;
    var q2, r2 := q / s, q % s;
    assert x == 2 * (s * q2 + r2) + r;
    assert x == (2 * s) * q2 + (2 * r2 + r) by { assert (2 * s) * q2 == 2 * (s * q2); }
    DivUnique(x, 2 * s, q2, 2 * r2 + r);
  }

  lemma DivUnique(x: int, d: int, q: int, r: int)
    requires d > 0 && x == d * q + r && 0 <= r < d
    ensures x / d == q && x % d == r
  {
    var q', r' := x / d, x % d;
    MultipleInGap(d, q - q', r' - r) by { assert d * (q - q') == d * q - d * q'; }
  }

  lemma MulSign(d: int, k: int)
    requires d > 0
    ensures k >= 1 ==> d * k >= d
    ensures k <= -1 ==> d * k <= -d
  {
  }

  /** Only the zero multiple of d lies strictly between -d and d. */
  lemma MultipleInGap(d: int, k: int, m: int)
    requires d > 0 && d * k == m && -d < m < d
    ensures k == 0
  {
    MulSign(d, k);
  }

  /** The low half of a residue modulo 2s and the bit above it. */
  lemma ModSplit(x: int, s: int)
    requires s > 0
    ensures x % (2 * s) == (x / s % 2) * s + x % s
  {
    var q, r := x / s, x % s;
    var b, h := q % 2, q / 2;
    assert x == s * (2 * h + b) + r;
    assert s * (2 * h + b) == (2 * s) * h + s * b;
    assert 0 <= b <= 1;
    assert s * b == b * s;
    if b == 0 { assert b * s == 0; } else { assert b * s == s; }
    DivUnique(x, 2 * s, h, b * s + r);
  }

  /** Mirroring commutes with taking the residue, also where the mirror image is negative. */
  lemma FlipMod(x: int, s: int)
    requires s > 0
    ensures (s - 1 - x) % s == s - 1 - x % s
  {
    var q, r := x / s, x % s;
    assert s - 1 - x == s * (-q) + (s - 1 - r);
    DivUnique(s - 1 - x, s, -q, s - 1 - r);
  }
}
