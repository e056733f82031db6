/** Facts about products and remainders, stated one at a time. */
module Arithmetic {

  const UINT32: nat := 0x1_0000_0000
  const UINT64: nat := 0x1_0000_0000_0000_0000

  function Min(a: int, b: int): int {
    if a < b then a else b
  }

  /** Go's `/` truncates toward zero. */
  function GoDiv(a: int, b: int): int
    requires b > 0
  {
    if a >= 0 then a / b else -((-a) / b)
  }

  lemma Times(a: int, b: int, p: nat)
    requires a <= b
    ensures a * p <= b * p
  {}

  lemma Cancel(e: int, b: int)
    requires -b < e * b < b
    ensures e == 0
  {}

  lemma Quotient(a: int, b: nat)
    requires b > 0
    ensures a == (a / b) * b + a % b && 0 <= a % b < b
  {}

  lemma DivUnique(a: int, b: int, q: int, r: int)
    requires b > 0 && 0 <= r < b && a == q * b + r
    ensures a / b == q && a % b == r
  {
    var e := q - a / b;
    assert e * b == a % b - r;
    assert -b < e * b < b;
    Cancel(e, b);
  }

  lemma SameQuotient(a: int, b: int, q: int)
    requires b > 0
    ensures a / b == q <==> q * b <= a < q * b + b
    ensures a / b == q ==> a == q * b + a % b
  {
    Quotient(a, b);
    if q * b <= a < q * b + b { DivUnique(a, b, q, a - q * b); }
  }

  lemma ModOnce(a: int, n: nat)
    requires 0 < n && 0 <= a <= 2 * n
    ensures a % n == if a < n then a else if a < 2 * n then a - n else 0
  {
    if a < n { DivUnique(a, n, 0, a); }
    else if a < 2 * n { DivUnique(a, n, 1, a - n); }
    else { DivUnique(a, n, 2, 0); }
  }

  /** The multiples of `b` are `b` apart. */
  lemma NextMultiple(b: nat, n: nat, a: int)
    requires b > 0 && n * b <= a < n * b + b
    ensures a % b == 0 <==> a == n * b
  {
    DivUnique(a, b, n, a - n * b);
  }
}
