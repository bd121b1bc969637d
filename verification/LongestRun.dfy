/** The earliest longest run of a property over the integers from 0: the rule that picks the snow
    period of a season and the run of bands of a level. */
module LongestRun {

  ghost predicate All(f: int -> bool, a: int, b: int) {
    forall d | a <= d < b :: f(d)
  }

  /** The earliest longest run before n, by its first place and its length; 0 and 0 when there is none. */
  ghost predicate Longest(f: int -> bool, n: int, first: int, length: int) {
    && 0 <= first <= first + length <= n
    && (length == 0 ==> first == 0)
    && All(f, first, first + length)
    && forall a, b | 0 <= a < b <= n && All(f, a, b) :: b - a < length || (b - a == length && first <= a)
  }

  lemma LongestIsUnique(f: int -> bool, n: int, p: int, k: int, q: int, l: int)
    requires Longest(f, n, p, k) && Longest(f, n, q, l)
    ensures p == q && k == l
  {
    assert All(f, p, p + k) && All(f, q, q + l);
  }

  lemma LongestSame(f: int -> bool, g: int -> bool, n: int, first: int, length: int)
    requires Longest(f, n, first, length)
    requires forall d | 0 <= d < n :: f(d) == g(d)
    ensures Longest(g, n, first, length)
  {
    forall a, b | 0 <= a < b <= n && All(g, a, b)
      ensures b - a < length || (b - a == length && first <= a)
    {
      assert All(f, a, b);
    }
  }

  /** Places without the property at the end change nothing. */
  lemma LongestPadded(f: int -> bool, n: int, m: int, first: int, length: int)
    requires Longest(f, n, first, length) && n <= m
    requires forall d | n <= d < m :: !f(d)
    ensures Longest(f, m, first, length)
  {
    forall a, b | 0 <= a < b <= m && All(f, a, b)
      ensures b - a < length || (b - a == length && first <= a)
    {
      assert f(b - 1);
      assert b <= n;
    }
  }

  /** A run that starts after the counted places is offered whole. */
  lemma LongestCredited(f: int -> bool, start: int, end: int, first: int, length: int)
    requires Longest(f, start, first, length)
    requires start < end && All(f, start, end)
    requires start == 0 || !f(start - 1)
    ensures if end - start > length then Longest(f, end, start, end - start) else Longest(f, end, first, length)
  {
    forall a, b | 0 <= a < b <= end && All(f, a, b)
      ensures b <= start || start <= a
    {
      assert a < start < b ==> f(start - 1);
    }
  }

  /** One more place of a run of length `run` that ends at n. */
  lemma LongestGrown(f: int -> bool, n: int, run: int, first: int, length: int)
    requires Longest(f, n, first, length) && f(n)
    requires 0 <= run <= n && All(f, n - run, n) && (run == n || !f(n - run - 1))
    ensures if run + 1 > length then Longest(f, n + 1, n - run, run + 1) else Longest(f, n + 1, first, length)
  {
    assert All(f, n - run, n + 1);
    forall a, b | 0 <= a < b <= n + 1 && All(f, a, b)
      ensures b <= n || n - run <= a
    {
      assert a < n - run && b == n + 1 ==> f(n - run - 1);
    }
  }

  /** A weaker property has runs at least as long. */
  lemma LongestWeaker(f: int -> bool, g: int -> bool, n: int, p: int, k: int, q: int, l: int)
    requires Longest(f, n, p, k) && Longest(g, n, q, l)
    requires forall d | 0 <= d < n && f(d) :: g(d)
    ensures k <= l
  {
    assert All(g, p, p + k);
  }

  /** The run of a property that holds on one interval is that interval. */
  lemma LongestOfInterval(f: int -> bool, n: int, first: int, length: int, d: int)
    requires Longest(f, n, first, length)
    requires forall a, b, m | 0 <= a <= m <= b < n && f(a) && f(b) :: f(m)
    requires 0 <= d < n && f(d)
    ensures first <= d < first + length
  {
    assert All(f, d, d + 1);
    assert f(first) && f(first + length - 1);
    if d < first {
      assert All(f, d, first + length);
    } else if d >= first + length {
      assert All(f, first, d + 1);
    }
  }
}
