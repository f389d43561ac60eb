/** Exponential backoff between restarts, in seconds. */
module Backoff {

  const INITIAL_BACKOFF := 1
  const MAX_BACKOFF := 30

  function Pow2(k: nat): (p: nat)
    ensures p >= 1
  {
    if k == 0 then 1 else 2 * Pow2(k - 1)
  }

  function Min(a: int, b: int): int { if a < b then a else b }

  /** The documented delay before restart number k, in closed form. */
  function BackoffSeconds(failures: int): (d: nat)
    ensures INITIAL_BACKOFF <= d <= MAX_BACKOFF
  {
    if failures <= 0 then INITIAL_BACKOFF else Min(MAX_BACKOFF, Pow2(failures - 1))
  }

  lemma {:induction false} Pow2Monotone(a: nat, b: nat)
    requires a <= b
    ensures Pow2(a) <= Pow2(b)
    decreases b - a
  {
    if a < b {
      Pow2Monotone(a, b - 1);
    }
  }

  /** `products` is every value the running product takes: powers of two, never far past the cap. */
  method BackoffDuration(failures: int) returns (d: int, ghost products: seq<int>)
    ensures d == BackoffSeconds(failures)
    ensures failures <= 1 ==> d == 1
    ensures failures >= 6 ==> d == 30
    ensures products != [] && d == Min(MAX_BACKOFF, products[|products| - 1])
    ensures forall i | 0 <= i < |products| :: products[i] == Pow2(i) <= 32
  {
    products := [INITIAL_BACKOFF];
    if failures <= 0 {
      return INITIAL_BACKOFF, products;
    }
    d := INITIAL_BACKOFF;
    for i := 1 to failures
      invariant d == Pow2(i - 1) && d in {1, 2, 4, 8, 16}
      invariant |products| == i && products[i - 1] == d
      invariant forall k | 0 <= k < i :: products[k] == Pow2(k) <= 32
    {
      d := d * 2;
      products := products + [d];
      if d >= MAX_BACKOFF {
        Pow2Monotone(i, failures - 1);
        return MAX_BACKOFF, products;
      }
    }
    if d > MAX_BACKOFF {
      return MAX_BACKOFF, products;
    }
  }

  /** The delays of n failures in a row, added up. */
  function TotalBackoff(n: nat): nat {
    if n == 0 then 0 else TotalBackoff(n - 1) + BackoffSeconds(n)
  }

  lemma {:induction false} TotalBackoffClosedForm(n: nat)
    ensures n <= 5 ==> TotalBackoff(n) == Pow2(n) - 1
    ensures n >= 5 ==> TotalBackoff(n) == 31 + 30 * (n - 5)
  {
    if n > 0 {
      TotalBackoffClosedForm(n - 1);
      if n <= 5 {
        Pow2Monotone(n - 1, 4);
        assert Pow2(4) == 16;
      } else {
        Pow2Monotone(5, n - 1);
        assert Pow2(5) == 32;
      }
    }
  }
}
