/** Numbers as the program's `int` holds them. */
module Words {
  const INT_LIMIT: nat := 0x8000_0000
  const UINT_LIMIT: nat := 0x1_0000_0000

  predicate FitsInt(n: int) {
    -(INT_LIMIT as int) <= n < INT_LIMIT
  }

  /** What storing in an `int` of 32 bits makes of a number. */
  function AsInt(n: int): (i: int)
    ensures FitsInt(i)
    ensures i == n <==> FitsInt(n)
  {
    (n + INT_LIMIT) % UINT_LIMIT - INT_LIMIT
  }

  /** It takes whole multiples of 2^32 away. */
  lemma AsIntWraps(n: int) returns (k: int)
    ensures AsInt(n) == n - k * UINT_LIMIT
    ensures k == 0 <==> FitsInt(n)
  {
    k := (n + INT_LIMIT) / UINT_LIMIT;
  }
}
