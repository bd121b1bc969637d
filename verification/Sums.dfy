/** Sums and counts over indices. */
module Sums {

  function Sum(n: nat, f: int -> real): real {
    if n == 0 then 0.0 else Sum(n - 1, f) + f(n - 1)
  }

  function Tally(n: nat, p: int -> bool): nat {
    if n == 0 then 0 else Tally(n - 1, p) + if p(n - 1) then 1 else 0
  }

  lemma {:induction false} SumSame(n: nat, f: int -> real, g: int -> real)
    requires forall i | 0 <= i < n :: f(i) == g(i)
    ensures Sum(n, f) == Sum(n, g)
  {
    if n > 0 { SumSame(n - 1, f, g); }
  }

  /** The first term, and the others one place further down. */
  lemma {:induction false} SumFirst(n: nat, f: int -> real, g: int -> real)
    requires forall i | 0 <= i < n :: g(i) == f(i + 1)
    ensures Sum(n + 1, f) == f(0) + Sum(n, g)
  {
    if n > 0 { SumFirst(n - 1, f, g); }
  }

  lemma {:induction false} TallyFirst(n: nat, p: int -> bool, q: int -> bool)
    requires forall i | 0 <= i < n :: q(i) == p(i + 1)
    ensures Tally(n + 1, p) == (if p(0) then 1 else 0) + Tally(n, q)
  {
    if n > 0 { TallyFirst(n - 1, p, q); }
  }

  /** A count is the number of the indices that have the property. */
  lemma {:induction false} TallyIsSize(n: nat, p: int -> bool, s: set<int>)
    requires forall i :: i in s <==> 0 <= i < n && p(i)
    ensures |s| == Tally(n, p)
  {
    if n > 0 {
      var rest := s - {n - 1};
      TallyIsSize(n - 1, p, rest);
      if p(n - 1) {
        assert s == rest + {n - 1};
      } else {
        assert s == rest;
      }
    } else {
      assert forall i :: i !in s;
      assert s == {};
    }
  }

  lemma {:induction false} TallySame(n: nat, p: int -> bool, q: int -> bool)
    requires forall i | 0 <= i < n :: p(i) == q(i)
    ensures Tally(n, p) == Tally(n, q)
  {
    if n > 0 { TallySame(n - 1, p, q); }
  }

  /** A property that is one of two that exclude each other. */
  lemma {:induction false} TallySplit(n: nat, p: int -> bool, q: int -> bool, either: int -> bool)
    requires forall i | 0 <= i < n :: (either(i) <==> p(i) || q(i)) && !(p(i) && q(i))
    ensures Tally(n, either) == Tally(n, p) + Tally(n, q)
  {
    if n > 0 { TallySplit(n - 1, p, q, either); }
  }
}
