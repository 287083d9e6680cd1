/**
 * The index arithmetic both banner carousels use: JavaScript's `%`, which
 * truncates toward zero, and the next/previous steps over `n` slides.
 */
module SlideIndex {

  /** JavaScript's `a % n` for `n > 0`: the sign follows `a`. */
  function JsRem(a: int, n: int): (r: int)
    requires n > 0
    ensures a >= 0 ==> r == a % n
    ensures -n < r < n
  {
    if a >= 0 then a % n else -((-a) % n)
  }

  /** `(prev + 1) % n`. */
  function Next(i: int, n: int): int
    requires n > 0
  {
    JsRem(i + 1, n)
  }

  /** `(prev - 1 + n) % n`. */
  function Previous(i: int, n: int): int
    requires n > 0
  {
    JsRem(i - 1 + n, n)
  }

  predicate InRange(i: int, n: int)
  {
    0 <= i < n
  }

  /** Both steps keep an index in range, and move it by one place around the circle. */
  lemma StepsStayInRange(i: int, n: int)
    requires n > 0 && InRange(i, n)
    ensures InRange(Next(i, n), n) && InRange(Previous(i, n), n)
    ensures Next(i, n) == (if i == n - 1 then 0 else i + 1)
    ensures Previous(i, n) == (if i == 0 then n - 1 else i - 1)
  {
    if i == n - 1 {
      ModUnique(i + 1, n, 1, 0);
    } else {
      ModUnique(i + 1, n, 0, i + 1);
    }
    if i == 0 {
      ModUnique(i - 1 + n, n, 0, n - 1);
    } else {
      ModUnique(i - 1 + n, n, 1, i - 1);
    }
  }

  /** The two steps undo each other. */
  lemma PreviousUndoesNext(i: int, n: int)
    requires n > 0 && InRange(i, n)
    ensures Previous(Next(i, n), n) == i
    ensures Next(Previous(i, n), n) == i
  {
    StepsStayInRange(i, n);
    StepsStayInRange(Next(i, n), n);
    StepsStayInRange(Previous(i, n), n);
  }

  /** `k` steps forward. */
  function Advance(i: int, k: nat, n: int): int
    requires n > 0
  {
    if k == 0 then i else Next(Advance(i, k - 1, n), n)
  }

  /** `k` steps forward from an index in range land on `(i + k) mod n`. */
  lemma {:induction false} AdvanceIsMod(i: int, k: nat, n: int)
    requires n > 0 && InRange(i, n)
    ensures Advance(i, k, n) == (i + k) % n
  {
    if k == 0 {
      ModUnique(i, n, 0, i);
    } else {
      AdvanceIsMod(i, k - 1, n);
      NextOfRemainder(i + k - 1, n);
    }
  }

  /** One step from `a mod n` lands on `(a + 1) mod n`. */
  lemma NextOfRemainder(a: int, n: int)
    requires n > 0 && a >= 0
    ensures Next(a % n, n) == (a + 1) % n
  {
    var q, m := a / n, a % n;
    assert a == q * n + m;
    StepsStayInRange(m, n);
    if m == n - 1 {
      assert a + 1 == (q + 1) * n;
      ModUnique(a + 1, n, q + 1, 0);
    } else {
      ModUnique(a + 1, n, q, m + 1);
    }
  }

  /** Euclidean division has one remainder: `q * n + r` leaves `r` whenever `0 <= r < n`. */
  lemma ModUnique(a: int, n: int, q: int, r: int)
    requires n > 0 && 0 <= r < n && a == q * n + r
    ensures a % n == r
  {
    var q', r' := a / n, a % n;
    assert a == q' * n + r';
    assert (q - q') * n == r' - r;
    if q - q' >= 1 {
      MulAtLeast(q - q', n);
    } else if q - q' <= -1 {
      MulAtLeast(q' - q, n);
    }
  }

  lemma MulAtLeast(d: int, n: int)
    requires d >= 1 && n > 0
    ensures d * n >= n
  {
  }

  /** `n` steps forward return to the start. */
  lemma FullTurn(i: int, n: int)
    requires n > 0 && InRange(i, n)
    ensures Advance(i, n, n) == i
  {
    AdvanceIsMod(i, n, n);
    ModUnique(i + n, n, 1, i);
  }
}
