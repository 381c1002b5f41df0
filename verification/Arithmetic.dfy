/** Quotients and remainders of naturals. */
module Arithmetic {
  lemma Distribute(d: nat, q: nat, q': nat)
    requires q < q'
    ensures d * q' >= d * q + d
  {
    assert d * q' == d * q + d * (q' - q);
    assert d * (q' - q) == d + d * (q' - q - 1);
  }

  /** Division with remainder has one answer. */
  lemma DivUnique(a: nat, d: nat, q: nat, r: nat)
    requires a == d * q + r && r < d
    ensures a / d == q && a % d == r
  {
    var q' := a / d;
    if q < q' {
      Distribute(d, q, q');
    } else if q' < q {
      Distribute(d, q', q);
    }
  }

  lemma DivStep(a: nat, d: nat)
    requires 0 < d <= a
    ensures a / d == (a - d) / d + 1 && a % d == (a - d) % d
  {
    var q, r := (a - d) / d, (a - d) % d;
    assert a - d == d * q + r;
    assert d * (q + 1) == d * q + d;
    DivUnique(a, d, q + 1, r);
  }

  lemma DivSmall(a: nat, d: nat)
    requires a < d
    ensures a / d == 0 && a % d == a
  {
    DivUnique(a, d, 0, a);
  }
}
