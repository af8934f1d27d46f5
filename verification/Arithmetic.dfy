/** Small facts about integer products, quotients and ring positions used across the models. */
module Arithmetic {

  function Min(a: int, b: int): int { if a < b then a else b }

  function Max(a: int, b: int): int { if a < b then b else a }

  /** `width * count`, by repeated addition so that proofs about it stay linear. */
  function Times(width: int, count: nat): int {
    if count == 0 then 0 else Times(width, count - 1) + width
  }

  lemma {:induction false} TimesIsProduct(width: int, count: nat)
    ensures Times(width, count) == width * count
  {
    if count > 0 {
      TimesIsProduct(width, count - 1);
      assert width * count == width * (count - 1) + width;
    }
  }

  lemma {:induction false} TimesPositive(width: int, count: nat)
    requires width > 0
    ensures Times(width, count) >= count
  {
    if count > 0 {
      TimesPositive(width, count - 1);
    }
  }

  lemma ProductAtLeast(a: int, n: nat)
    requires a >= 1
    ensures a * n >= n
  {
    assert a * n == n + (a - 1) * n;
  }

  /** Quotient and remainder are the only pair with x == q * n + r and 0 <= r < n. */
  lemma DivModUnique(x: int, n: nat, q: int, r: int)
    requires n > 0 && x == q * n + r && 0 <= r < n
    ensures x / n == q && x % n == r
  {
    var q', r' := x / n, x % n;
    assert x == q' * n + r';
    assert (q - q') * n == r' - r;
    if q > q' {
      ProductAtLeast(q - q', n);
    } else if q < q' {
      assert (q' - q) * n == r - r';
      ProductAtLeast(q' - q, n);
    }
  }

  /** A ring position one lap ahead, for any start less than one lap past the end. */
  lemma RingPosition(x: int, n: nat)
    requires n > 0 && 0 <= x < 2 * n
    ensures (x + n) % n == if x >= n then x - n else x
  {
    if x >= n {
      DivModUnique(x + n, n, 2, x - n);
    } else {
      DivModUnique(x + n, n, 1, x);
    }
  }

  lemma RingWrap(x: int, n: nat)
    requires n > 0 && 0 <= x < 2 * n
    ensures x % n == if x >= n then x - n else x
  {
    if x >= n {
      DivModUnique(x, n, 1, x - n);
    } else {
      DivModUnique(x, n, 0, x);
    }
  }
}
