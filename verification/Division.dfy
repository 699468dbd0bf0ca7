/** Quotients and remainders that the solver does not find by itself. */
module Division {
  lemma DivMod(x: int, p: int)
    requires p > 0
    ensures x == (x / p) * p + x % p && 0 <= x % p < p
  {
  }

  /** A multiple of p strictly between -p and p is zero. */
  lemma SmallMultiple(d: int, p: int)
    requires p > 0 && -p < d * p < p
    ensures d == 0
  {
  }

  /** A remainder in range is the remainder. */
  lemma ModUnique(x: int, r: int, q: int, p: int)
    requires 0 <= r < p && x == q * p + r
    ensures x % p == r && x / p == q
  {
    DivMod(x, p);
    var d := x / p - q;
    assert d * p == (x / p) * p - q * p;
    SmallMultiple(d, p);
  }
}
