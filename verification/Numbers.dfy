/** Powers of two, and the larger and smaller of two numbers. */
module Numbers {

  const TWO32 := 0x1_0000_0000
  const TWO64 := 0x1_0000_0000_0000_0000

  /** 2^k */
  function Exp2(k: nat): (r: nat)
    ensures r > 0
  {
    if k == 0 then 1 else 2 * Exp2(k - 1)
  }

  function Max(a: int, b: int): int {
    if a > b then a else b
  }

  function Min(a: int, b: int): int {
    if a < b then a else b
  }

  /** Different multiples are apart. */
  lemma {:induction false} Apart(a: int, b: int, m: nat)
    requires a > b
    ensures a * m >= b * m + m
    decreases a - b
  {
    if a == b + 1 {
      assert (b + 1) * m == b * m + m;
    } else {
      Apart(a - 1, b, m);
      assert (a - 1) * m + m == a * m;
    }
  }

  /** Quotient and remainder are unique. */
  lemma {:induction false} Division(a: int, m: nat, q: int, r: int)
    requires 0 <= r < m && a == q * m + r
    ensures a / m == q && a % m == r
  {
    SameDivision(a / m, a % m, q, r, m);
  }

  lemma {:induction false} SameDivision(q: int, r: int, k: int, t: int, m: nat)
    requires 0 <= r < m && 0 <= t < m && q * m + r == k * m + t
    ensures q == k && r == t
  {
    if q > k {
      Apart(q, k, m);
    } else if q < k {
      Apart(k, q, m);
    }
  }

  /** The remainder of a modulo m. */
  function Wrapped(a: nat, m: nat): (r: nat)
    requires m > 0
    ensures r < m
  {
    a % m
  }

  lemma {:induction false} WrappedSum(a: nat, k: nat, m: nat)
    requires m > 0
    ensures Wrapped(a + k * m, m) == Wrapped(a, m)
  {
    var q, r := a / m, a % m;
    assert a + k * m == (q + k) * m + r;
    Division(a + k * m, m, q + k, r);
  }

  lemma {:induction false} WrappedSmall(a: nat, m: nat)
    requires a < m
    ensures Wrapped(a, m) == a
  {
    Division(a, m, 0, a);
  }
}
