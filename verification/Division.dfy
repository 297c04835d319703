/** Facts about division with remainder. */
module Division {
  lemma Distribute(a: int, b: int, m: int)
    ensures (a - b) * m == a * m - b * m
  {
  }

  lemma AtLeast(a: int, m: int)
    requires m > 0
    ensures a >= 1 ==> a * m >= m
    ensures a <= -1 ==> a * m <= -m
  {
    if a >= 1 { Distribute(a, 1, m); } else { Distribute(a, -1, m); }
  }

  /** Division with remainder is unique. */
  lemma DivisionUnique(m: int, q: int, r: int, q': int, r': int)
    requires 0 <= r < m && 0 <= r' < m && q * m + r == q' * m + r'
    ensures q == q' && r == r'
  {
    Distribute(q, q', m);
    AtLeast(q - q', m);
  }

  lemma DivisionIs(x: int, m: int, q: int, r: int)
    requires 0 <= r < m && x == q * m + r
    ensures x / m == q && x % m == r
  {
    var d, e := x / m, x % m;
    DivisionUnique(m, q, r, d, e);
  }

  lemma NextRemainder(n: nat, d: nat)
    requires d > 0
    ensures (n + 1) % d == if n % d + 1 == d then 0 else n % d + 1
  {
    var q, r := n / d, n % d;
    if r + 1 == d {
      Distribute(q + 1, q, d);
      DivisionIs(n + 1, d, q + 1, 0);
    } else {
      DivisionIs(n + 1, d, q, r + 1);
    }
  }
}
