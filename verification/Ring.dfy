/**
  Cursor arithmetic on a ring of n positions. The masks of the source,
  `(x + k) & (n - 1)`, are remainders because n is a power of two there; At
  computes that remainder without dividing, since cursors never run more than
  one lap ahead.
 */
module Ring {

  predicate IsPowerOfTwo(n: nat) {
    n == 1 || (n > 1 && n % 2 == 0 && IsPowerOfTwo(n / 2))
  }

  /** The position k steps after p. */
  function At(p: nat, k: nat, n: nat): (r: nat)
    requires p < n && k <= n
    ensures r < n
  {
    if p + k < n then p + k else p + k - n
  }

  /** The position after p. */
  function Next(p: nat, n: nat): (r: nat)
    requires p < n
    ensures r < n
  {
    if p + 1 == n then 0 else p + 1
  }

  /** How many steps lead from h forward to p. */
  function Off(h: nat, p: nat, n: nat): (r: nat)
    requires h < n && p < n
    ensures r < n
  {
    if p >= h then p - h else p + n - h
  }

  /** At and Next are the masked additions of the source. */
  lemma AtIsRemainder(p: nat, k: nat, n: nat)
    requires p < n && k <= n
    ensures At(p, k, n) == (p + k) % n
    ensures Next(p, n) == (p + 1) % n
  {
    if p + k >= n {
      assert (p + k) / n == 1;
    }
  }
}
