/** Bitwise or on natural numbers. */
module Bits {

  function Or(x: nat, y: nat): nat
    decreases x
  {
    if x == 0 then y
    else 2 * Or(x / 2, y / 2) + if x % 2 == 1 || y % 2 == 1 then 1 else 0
  }

  /** 1 << k */
  function Pow2(k: nat): (r: nat)
    ensures r > 0
  {
    if k == 0 then 1 else 2 * Pow2(k - 1)
  }

  lemma {:induction false} OrOfZero(x: nat)
    ensures Or(x, 0) == x
  {
    if x > 0 {
      OrOfZero(x / 2);
    }
  }

  lemma {:induction false} OrIsAtLeast(x: nat, y: nat)
    ensures Or(x, y) >= x && Or(x, y) >= y
    decreases x
  {
    if x > 0 {
      OrIsAtLeast(x / 2, y / 2);
    }
  }

  lemma OnesHalved(p: nat)
    requires p > 0
    ensures (2 * p - 1) / 2 == p - 1 && (2 * p - 1) % 2 == 1
  {
  }

  /** Ones below k cover everything below k. */
  lemma {:induction false} OrOfOnes(x: nat, k: nat)
    requires x < Pow2(k)
    ensures Or(x, Pow2(k) - 1) == Pow2(k) - 1
    decreases x
  {
    if x > 0 {
      assert k > 0;
      OrOfOnes(x / 2, k - 1);
      var p := Pow2(k - 1);
      assert Pow2(k) == 2 * p;
      hide Pow2;
      OnesHalved(p);
      assert Or(x, 2 * p - 1) == 2 * Or(x / 2, p - 1) + 1;
    }
  }

  /** Above place k the numbers are put over one another; below it stands what only the second has. */
  lemma {:induction false} OrAbove(x: nat, y: nat, low: nat, k: nat)
    requires low < Pow2(k)
    ensures Or(x * Pow2(k), y * Pow2(k) + low) == Or(x, y) * Pow2(k) + low
    decreases k
  {
    if k == 0 {
    } else if x == 0 {
      assert x * Pow2(k) == 0;
    } else {
      var p := Pow2(k - 1);
      Doubled(x, k);
      Doubled(y, k);
      OrAbove(x, y, low / 2, k - 1);
      var a, b := x * Pow2(k), y * Pow2(k) + low;
      assert a / 2 == x * p && a % 2 == 0 && b / 2 == y * p + low / 2 && b % 2 == low % 2;
      assert a > 0;
      Doubled(Or(x, y), k);
    }
  }

  lemma Doubled(x: nat, k: nat)
    requires k > 0
    ensures x * Pow2(k) == 2 * (x * Pow2(k - 1))
  {
  }
}
