/** The few facts about products and quotients that the solver needs spelled out. */
module Arithmetic {

  lemma DivisionFloor(a: nat, b: nat)
    requires b > 0
    ensures b * (a / b) <= a < b * (a / b + 1)
  {
  }

  lemma Distribute(a: nat, b: nat, c: nat)
    ensures (a + b) * c == a * c + b * c
  {
  }

  lemma TimesMonotonic(a: nat, b: nat, c: nat)
    requires a <= b
    ensures a * c <= b * c
  {
  }

  lemma NextMultiple(a: nat, b: nat, k: nat)
    requires a < b
    ensures a * k + k <= b * k
  {
    TimesMonotonic(a + 1, b, k);
    Distribute(a, 1, k);
  }

  /** Inside the block of k numbers that starts at q * k, the remainder is the place in the block. */
  lemma ModuloInBlock(n: nat, q: nat, k: nat)
    requires k > 0 && q * k <= n < q * k + k
    ensures n % k == n - q * k && n / k == q
  {
    var r := n / k;
    assert n == r * k + n % k;
    if r < q {
      NextMultiple(r, q, k);
    } else if q < r {
      NextMultiple(q, r, k);
    }
  }
}
