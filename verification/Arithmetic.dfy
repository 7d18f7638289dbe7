/** Division facts the solver does not find by itself. */
module Arithmetic {

  lemma MulMonotone(a: int, b: int, n: nat)
    requires a <= b
    ensures a * n <= b * n
  {
  }

  lemma DivModUnique(x: int, q: int, r: nat, n: nat)
    requires r < n && x == q * n + r
    ensures x % n == r && x / n == q
  {
    var d := x / n;
    assert x == d * n + x % n;
    if d < q {
      MulMonotone(d + 1, q, n);
    } else if d > q {
      MulMonotone(q + 1, d, n);
    }
  }

  /** Numbers less than n apart have different residues. */
  lemma DistinctResidues(a: nat, b: nat, n: nat)
    requires a < b < a + n
    ensures a % n != b % n
  {
    var q, r := a / n, a % n;
    assert a == q * n + r;
    if r + (b - a) < n {
      DivModUnique(b, q, r + (b - a), n);
    } else {
      assert (q + 1) * n == q * n + n;
      DivModUnique(b, q + 1, r + (b - a) - n, n);
    }
  }
}
