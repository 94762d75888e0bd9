/** Remainders. */
module Modular {

  lemma AtLeastOnce(m: nat, d: nat)
    requires d > 0
    ensures m * d >= m
  {
  }

  /** Division with remainder is unique. */
  lemma ModUnique(x: nat, m: nat, q: nat, r: nat)
    requires m > 0 && x == m * q + r && r < m
    ensures x % m == r
  {
    var d := q - x / m;
    assert m * d == x % m - r;
    if d > 0 {
      AtLeastOnce(m, d);
    } else if d < 0 {
      AtLeastOnce(m, -d);
    }
  }
}
