/** Facts about Euclidean division that the solver does not find unaided. */
module Arith {

  /** Euclidean division is determined by quotient and remainder. */
  lemma DivModUnique(a: int, d: int, q: int, r: int)
    requires d > 0 && 0 <= r < d && a == d * q + r
    ensures a / d == q && a % d == r
  {
    var q', r' := a / d, a % d;
    assert a == d * q' + r';
    if q' < q {
      MulSplit(d, q', q - q');
      MulAtLeast(d, q - q');
    } else if q' > q {
      MulSplit(d, q, q' - q);
      MulAtLeast(d, q' - q);
    }
  }

  lemma MulSplit(d: int, a: int, k: int)
    ensures d * (a + k) == d * a + d * k
  {
  }

  lemma MulAtLeast(d: int, k: int)
    requires d > 0 && k >= 1
    ensures d * k >= d
  {
  }

  /** Adding a multiple of `d` to a number below `d` leaves it as the remainder. */
  lemma ModOffset(m: int, r: int, d: int)
    requires d > 0 && m % d == 0 && 0 <= r < d
    ensures (m + r) % d == r
  {
    DivModUnique(m + r, d, m / d, r);
  }

  /** `y / k` steps up by one exactly at the multiples of `k`. */
  lemma DivStep(y: int, k: int)
    requires k > 0
    ensures y / k - (y - 1) / k == if y % k == 0 then 1 else 0
  {
    var q, r := (y - 1) / k, (y - 1) % k;
    if r + 1 < k {
      DivModUnique(y, k, q, r + 1);
    } else {
      MulSplit(k, q, 1);
      DivModUnique(y, k, q + 1, 0);
    }
  }
}
