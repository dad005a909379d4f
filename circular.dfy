/**
 * Circular index arithmetic shared by the gallery lightbox and the services
 * carousel: both step an index forward with `(i + 1) % n` and backward with
 * `(i - 1 + n) % n`, using JavaScript's remainder operator.
 */
module Circular {

  /** JavaScript's `a % n` for a positive divisor: it truncates toward zero, so
      the result takes the sign of `a` (Dafny's `%` never goes negative). */
  function Rem(a: int, n: int): (r: int)
    requires n > 0
    ensures -n < r < n
    ensures a >= 0 ==> r >= 0
    ensures a <= 0 ==> r <= 0
    ensures (a - r) % n == 0
  {
    if a >= 0 then
      ModUnique(a, n, a / n, a % n);
      ModUnique(a - a % n, n, a / n, 0);
      a % n
    else
      ModUnique(-a, n, (-a) / n, (-a) % n);
      ModUnique(a + (-a) % n, n, -((-a) / n), 0);
      -((-a) % n)
  }

  lemma MulAtLeast(x: int, n: int)
    requires n > 0 && x >= 1
    ensures x * n >= n
  {
    assert x * n == (x - 1) * n + n;
    assert (x - 1) * n >= 0;
  }

  /** Euclidean division is unique: `a == q * n + r` with `0 <= r < n` fixes both. */
  lemma ModUnique(a: int, n: int, q: int, r: int)
    requires n > 0 && 0 <= r < n && a == q * n + r
    ensures a % n == r && a / n == q
  {
    var d, m := a / n, a % n;
    assert a == d * n + m;
    assert (q - d) * n == m - r;
    if q - d >= 1 {
      MulAtLeast(q - d, n);
    } else if d - q >= 1 {
      MulAtLeast(d - q, n);
    }
  }

  /** The index after `i` in a list of length `n`: `(i + 1) % n`. */
  function Next(i: int, n: int): (r: int)
    requires n > 0
    ensures i >= -1 ==> 0 <= r < n
    ensures (i + 1 - r) % n == 0
  {
    Rem(i + 1, n)
  }

  /** The index before `i` in a list of length `n`: `(i - 1 + n) % n`. */
  function Prev(i: int, n: int): (r: int)
    requires n > 0
    ensures i >= 1 - n ==> 0 <= r < n
    ensures (i - 1 + n - r) % n == 0
  {
    Rem(i - 1 + n, n)
  }

  /** Next moves one step to the right and wraps from the last index to 0. */
  lemma NextStep(i: int, n: int)
    requires 0 <= i < n
    ensures Next(i, n) == if i == n - 1 then 0 else i + 1
  {
    if i == n - 1 {
      ModUnique(i + 1, n, 1, 0);
    } else {
      ModUnique(i + 1, n, 0, i + 1);
    }
  }

  /** Prev moves one step to the left and wraps from 0 to the last index. */
  lemma PrevStep(i: int, n: int)
    requires 0 <= i < n
    ensures Prev(i, n) == if i == 0 then n - 1 else i - 1
  {
    if i == 0 {
      ModUnique(i - 1 + n, n, 0, n - 1);
    } else {
      ModUnique(i - 1 + n, n, 1, i - 1);
    }
  }

  /** Prev undoes Next and Next undoes Prev on every valid index. */
  lemma RoundTrip(i: int, n: int)
    requires 0 <= i < n
    ensures Prev(Next(i, n), n) == i
    ensures Next(Prev(i, n), n) == i
  {
    NextStep(i, n);
    PrevStep(i, n);
    NextStep(Prev(i, n), n);
    PrevStep(Next(i, n), n);
  }

  /** On a one-element list both steps stay at index 0. */
  lemma SingleElementFixed()
    ensures Next(0, 1) == 0 && Prev(0, 1) == 0
  {
    NextStep(0, 1);
    PrevStep(0, 1);
  }

  /** On a list of two or more, Next and Prev always move to another index. */
  lemma StepsMove(i: int, n: int)
    requires 0 <= i < n && n >= 2
    ensures Next(i, n) != i && Prev(i, n) != i
  {
    NextStep(i, n);
    PrevStep(i, n);
  }

  /** The index reached from `i` after `k` steps of Next (k auto-rotate ticks). */
  function Advance(i: int, k: nat, n: int): (r: int)
    requires n > 0 && 0 <= i < n
    ensures 0 <= r < n
  {
    if k == 0 then i else Next(Advance(i, k - 1, n), n)
  }

  /** One step of Next from `a mod n` lands on `(a + 1) mod n`. */
  lemma NextOfMod(a: int, n: int)
    requires n > 0 && a >= 0
    ensures Next(a % n, n) == (a + 1) % n
  {
    var q, j := a / n, a % n;
    assert a == q * n + j;
    NextStep(j, n);
    if j == n - 1 {
      ModUnique(a + 1, n, q + 1, 0);
    } else {
      ModUnique(a + 1, n, q, j + 1);
    }
  }

  /** k steps of Next land on `(i + k) mod n`. */
  lemma {:induction false} AdvanceIsOffset(i: int, k: nat, n: int)
    requires n > 0 && 0 <= i < n
    ensures Advance(i, k, n) == (i + k) % n
  {
    if k == 0 {
      ModUnique(i, n, 0, i);
    } else {
      AdvanceIsOffset(i, k - 1, n);
      NextOfMod(i + k - 1, n);
    }
  }

  /** n steps of Next from any index return to it: the rotation visits a full cycle. */
  lemma FullCycleReturns(i: int, n: int)
    requires n > 0 && 0 <= i < n
    ensures Advance(i, n, n) == i
  {
    AdvanceIsOffset(i, n, n);
    ModUnique(i + n, n, 1, i);
  }
}
