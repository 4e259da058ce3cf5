/** Facts about division that several components need. */
module Arithmetic {

  /** Quotient and remainder are determined by the division equation. */
  lemma RemainderUnique(a: nat, m: nat, q: nat, r: nat)
    requires m >= 1 && r < m && a == q * m + r
    ensures a % m == r
  {
    var d := a / m - q;
    assert a == (a / m) * m + a % m;
    assert d >= 1 ==> d * m >= m;
    assert d <= -1 ==> d * m <= 0 - m;
    assert d * m == r - a % m;
  }

  /** Counting one further: the remainder grows until it starts over, and then the quotient grows. */
  lemma NextQuotient(k: nat, m: nat)
    requires m >= 1
    ensures k % m + 1 < m ==> (k + 1) / m == k / m && (k + 1) % m == k % m + 1
    ensures k % m + 1 == m ==> (k + 1) / m == k / m + 1 && (k + 1) % m == 0
  {
    var q, r := k / m, k % m;
    var step := if r + 1 < m then 0 else 1;
    assert k == q * m + r;
    assert (q + step) * m == q * m + step * m && step * m == if step == 0 then 0 else m;
    RemainderUnique(k + 1, m, q + step, r + 1 - step * m);
    QuotientUnique(k + 1, m, q + step, r + 1 - step * m);
  }

  lemma QuotientUnique(a: nat, m: nat, q: nat, r: nat)
    requires m >= 1 && r < m && a == q * m + r
    ensures a / m == q
  {
    RemainderUnique(a, m, q, r);
    var d := a / m - q;
    assert a == (a / m) * m + a % m;
    assert d * m == 0;
    assert d >= 1 ==> d * m >= m;
    assert d <= -1 ==> d * m <= 0 - m;
  }
}
