/** Quotients and remainders. */
module Division {

  lemma MultipleIsFar(d: int, b: int)
    requires 1 <= b
    ensures d >= 1 ==> d * b >= b
    ensures d <= -1 ==> d * b <= -b
  {
    if d >= 1 {
      assert (d - 1) * b >= 0;
    } else if d <= -1 {
      assert (-d - 1) * b >= 0;
    }
  }

  lemma DivModUnique(a: nat, b: nat, q: nat, r: nat)
    requires 1 <= b && a == q * b + r && r < b
    ensures a / b == q && a % b == r
  {
    assert (a / b - q) * b == r - a % b;
    MultipleIsFar(a / b - q, b);
  }

  /** Halving a quotient doubles the divisor. */
  lemma HalfOfQuotient(x: nat, p: nat)
    requires p > 0
    ensures x / p / 2 == x / (2 * p)
  {
    var q, rest := x / p, x % p;
    var left := if q % 2 == 0 then rest else p + rest;
    HalvedProduct(q, p);
    DivModUnique(x, 2 * p, q / 2, left);
  }

  lemma HalvedProduct(q: nat, p: nat)
    ensures q * p == q / 2 * (2 * p) + if q % 2 == 0 then 0 else p
  {
    var half := q / 2;
    if q % 2 == 0 {
      assert q == 2 * half;
      assert 2 * half * p == half * (2 * p);
    } else {
      assert q == 2 * half + 1;
      assert (2 * half + 1) * p == 2 * half * p + p;
      assert 2 * half * p == half * (2 * p);
    }
  }
}
