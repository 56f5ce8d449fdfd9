/** Compact amounts, CTxOutCompressor of src/compressor.cpp. */
module AmountCodec {
  import opened Numbers

  const MAX_MONEY := 21_000_000_000 * 100_000

  function Pow10(e: nat): (r: nat)
    ensures r >= 1
  {
    if e == 0 then 1 else 10 * Pow10(e - 1)
  }

  /** Trailing zeros taken off, up to nine in all. */
  function Strip(n: nat, e: nat): (r: (nat, nat))
    requires n > 0 && e <= 9
    ensures e <= r.1 <= 9 && r.0 > 0 && (r.1 < 9 ==> r.0 % 10 != 0)
    decreases n
  {
    if n % 10 == 0 && e < 9 then Strip(n / 10, e + 1) else (n, e)
  }

  /** The code of a mantissa and exponent, and the mantissa a code stands for. */
  function Code(m: nat, e: nat): nat
    requires m > 0 && e <= 9 && (e < 9 ==> m % 10 != 0)
  {
    if e < 9 then 1 + (m / 10 * 9 + m % 10 - 1) * 10 + e else 1 + (m - 1) * 10 + 9
  }

  function Mantissa(x: nat): nat
    requires x > 0
  {
    if (x - 1) % 10 < 9 then (x - 1) / 10 / 9 * 10 + (x - 1) / 10 % 9 + 1 else (x - 1) / 10 + 1
  }

  function Compressed(n: nat): nat {
    if n == 0 then 0 else Code(Strip(n, 0).0, Strip(n, 0).1)
  }

  function Decompressed(x: nat): nat {
    if x == 0 then 0 else Mantissa(x) * Pow10((x - 1) % 10)
  }

  /** CompressAmount, in 64 bits; nothing is lost up to the largest amount of money. */
  method CompressAmount(n0: nat) returns (x: nat)
    ensures x == Wrapped(Compressed(n0), TWO64)
    ensures n0 <= MAX_MONEY ==> x == Compressed(n0)
  {
    hide Wrapped;
    if n0 == 0 {
      WrappedSmall(0, TWO64);
      return 0;
    }
    var n, e := n0, 0;
    while n % 10 == 0 && e < 9
      invariant 0 < n <= n0 && 0 <= e <= 9 && Strip(n0, 0) == Strip(n, e)
      decreases n
    {
      n := n / 10;
      e := e + 1;
    }
    ghost var code := Compressed(n0);
    if e < 9 {
      var d := n % 10;
      assert 1 <= d <= 9;
      n := n / 10;
      x := Wrapped(1 + (n * 9 + d - 1) * 10 + e, TWO64);
    } else {
      x := Wrapped(1 + (n - 1) * 10 + 9, TWO64);
    }
    if n0 <= MAX_MONEY {
      WrappedSmall(code, TWO64);
    }
  }

  /** The code of an amount of money fits 64 bits. */
  lemma {:induction false} MoneyFits(n: nat)
    requires n <= MAX_MONEY
    ensures Compressed(n) < TWO64
  {
    if n > 0 {
      StripSmaller(n, 0);
    }
  }

  lemma {:induction false} StripSmaller(n: nat, e: nat)
    requires n > 0 && e <= 9
    ensures Strip(n, e).0 <= n
    decreases n
  {
    if n % 10 == 0 && e < 9 {
      StripSmaller(n / 10, e + 1);
    }
  }

  /** DecompressAmount, in 64 bits. */
  method DecompressAmount(x0: nat) returns (n: nat)
    ensures n == Wrapped(Decompressed(x0), TWO64)
  {
    hide Wrapped;
    if x0 == 0 {
      WrappedSmall(0, TWO64);
      return 0;
    }
    var x := x0 - 1;
    var e := x % 10;
    x := x / 10;
    ghost var exact: nat;
    if e < 9 {
      var d := x % 9 + 1;
      x := x / 9;
      exact := x * 10 + d;
      n := Wrapped(x * 10 + d, TWO64);
    } else {
      exact := x + 1;
      n := Wrapped(x + 1, TWO64);
    }
    while e > 0
      invariant 0 <= e <= 9 && n == Wrapped(exact, TWO64) && exact * Pow10(e) == Decompressed(x0)
    {
      Shift(exact, Pow10(e - 1));
      WrapTen(exact, TWO64);
      exact := exact * 10;
      n := Wrapped(n * 10, TWO64);
      e := e - 1;
    }
  }

  lemma {:induction false} WrapTen(n: nat, m: nat)
    requires m > 0
    ensures Wrapped(Wrapped(n, m) * 10, m) == Wrapped(n * 10, m)
  {
    var q, r := n / m, n % m;
    assert n * 10 == r * 10 + q * 10 * m;
    WrappedSum(r * 10, q * 10, m);
  }

  lemma {:induction false} Shift(n: nat, p: nat)
    ensures n * (10 * p) == n * 10 * p
  {
  }

  lemma {:induction false} StripStep(n: nat, e: nat)
    requires n > 0 && e <= 9
    ensures n % 10 == 0 && e < 9 ==> n == 10 * (n / 10) && n / 10 > 0 && Strip(n, e) == Strip(n / 10, e + 1)
    ensures n % 10 != 0 || e == 9 ==> Strip(n, e) == (n, e)
  {
  }

  lemma {:induction false} TenMore(q: nat, m: nat, k: nat)
    requires q == m * Pow10(k)
    ensures 10 * q == m * Pow10(k + 1)
  {
    Shift(m, Pow10(k));
  }

  /** Stripping keeps the number: n has e - e0 more zeros than its rest. */
  lemma {:induction false} StripValue(n: nat, e: nat)
    requires n > 0 && e <= 9
    ensures var (m, f) := Strip(n, e); n == m * Pow10(f - e)
    decreases n
  {
    hide Strip;
    StripStep(n, e);
    if n % 10 == 0 && e < 9 {
      StripValue(n / 10, e + 1);
      TenMore(n / 10, Strip(n, e).0, Strip(n, e).1 - e - 1);
    }
  }

  /** Putting zeros on and stripping takes exactly those off again. */
  lemma {:induction false} StripShifted(m: nat, k: nat, e: nat)
    requires m > 0 && e + k <= 9 && (e + k == 9 || m % 10 != 0)
    ensures m * Pow10(k) > 0 && Strip(m * Pow10(k), e) == (m, e + k)
    decreases k
  {
    Positive(m, Pow10(k));
    if k > 0 {
      Shift(m, Pow10(k - 1));
      TenTimes(m * Pow10(k - 1), m * Pow10(k), m, Pow10(k - 1));
      StripShifted(m, k - 1, e + 1);
    }
  }

  lemma {:induction false} Positive(m: nat, p: nat)
    requires m > 0 && p > 0
    ensures m * p > 0
  {
  }

  lemma {:induction false} TenTimes(a: nat, b: nat, m: nat, p: nat)
    requires a == m * p && b == m * (10 * p)
    ensures b == 10 * a && b % 10 == 0 && b / 10 == a
  {
  }

  lemma {:induction false} CodeParts(m: nat, e: nat)
    requires m > 0 && e <= 9 && (e < 9 ==> m % 10 != 0)
    ensures var x := Code(m, e); x > 0 && (x - 1) % 10 == e && Mantissa(x) == m
  {
    if e < 9 {
      var q := m / 10 * 9 + m % 10 - 1;
      assert (Code(m, e) - 1) / 10 == q;
      assert q / 9 == m / 10 && q % 9 == m % 10 - 1;
    }
  }

  /** Decompressing what was compressed gives the amount back. */
  lemma {:induction false} AmountRoundTrip(n: nat)
    ensures Decompressed(Compressed(n)) == n
  {
    if n > 0 {
      StripValue(n, 0);
      var (m, e) := Strip(n, 0);
      CodeParts(m, e);
      hide Pow10, Strip, Code, Mantissa;
    }
  }

  /** Compressing what was decompressed gives the code back: the two are inverse bijections. */
  lemma {:induction false} CodeRoundTrip(x: nat)
    ensures Compressed(Decompressed(x)) == x
  {
    if x > 0 {
      var e, q := (x - 1) % 10, (x - 1) / 10;
      var m := Mantissa(x);
      assert e < 9 ==> m % 10 == q % 9 + 1 && m / 10 == q / 9;
      StripShifted(m, e, 0);
      assert Code(m, e) == x;
      hide Pow10, Strip, Code, Mantissa;
    }
  }

  /** In 64 bits: an amount whose code fits comes back. */
  lemma {:induction false} AmountBack64(n: nat)
    requires n < TWO64 && Compressed(n) < TWO64
    ensures Wrapped(Decompressed(Wrapped(Compressed(n), TWO64)), TWO64) == n
  {
    hide Wrapped, Compressed, Decompressed;
    WrappedSmall(Compressed(n), TWO64);
    AmountRoundTrip(n);
    WrappedSmall(n, TWO64);
  }

  /** In 64 bits: a code whose amount fits comes back. */
  lemma {:induction false} CodeBack64(x: nat)
    requires x < TWO64 && Decompressed(x) < TWO64
    ensures Wrapped(Compressed(Wrapped(Decompressed(x), TWO64)), TWO64) == x
  {
    hide Wrapped, Compressed, Decompressed;
    WrappedSmall(Decompressed(x), TWO64);
    CodeRoundTrip(x);
    WrappedSmall(x, TWO64);
  }
}
