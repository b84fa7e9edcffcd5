/** Powers of two, quotient and remainder. */
module Arithmetic {

  function Pow2(n: nat): (r: nat)
    ensures r > 0
  {
    if n == 0 then 1 else 2 * Pow2(n - 1)
  }

  predicate Int32(n: int) {
    -0x8000_0000 <= n < 0x8000_0000
  }

  /** A C int that has wrapped: the value modulo 2^32 in the range of an int. */
  function Wrap32(n: int): (r: int)
    ensures Int32(r) && (Int32(n) ==> r == n)
  {
    (n + 0x8000_0000) % 0x1_0000_0000 - 0x8000_0000
  }

  lemma WrapPlus(a: int, b: int)
    ensures Wrap32(Wrap32(a) + b) == Wrap32(a + b)
  {
  }

  lemma WrapZero(n: nat)
    requires n < 0x1_0000_0000
    ensures Wrap32(n) == 0 <==> n == 0
  {
  }

  function Min(a: int, b: int): int {
    if a < b then a else b
  }

  function Max(a: int, b: int): int {
    if a > b then a else b
  }

  lemma DivMod(q: int, d: nat, r: int)
    requires 0 <= r < d
    ensures (q * d + r) / d == q && (q * d + r) % d == r
  {
    var x := q * d + r;
    var q', r' := x / d, x % d;
    assert x == q' * d + r';
    if q < q' {
      Multiples(q, q', d);
    } else if q' < q {
      Multiples(q', q, d);
    }
  }

  /** Multiples of the divisor do not change a remainder. */
  lemma ModPlus(x: int, k: int, d: nat)
    requires d > 0
    ensures (x + k * d) % d == x % d
  {
    assert x == x / d * d + x % d;
    assert x + k * d == (x / d + k) * d + x % d;
    DivMod(x / d + k, d, x % d);
  }

  lemma ModMinus(x: int, d: nat)
    requires d > 0
    ensures (x - d) % d == x % d
  {
    ModPlus(x, -1, d);
  }

  lemma ModSmall(x: nat, d: nat)
    requires x < d
    ensures x % d == x
  {
    DivMod(0, d, x);
  }

  lemma Monotone(a: int, b: int, d: nat)
    requires a <= b
    ensures a * d <= b * d
  {
    assert (b - a) * d >= 0;
  }

  lemma Multiples(a: int, b: int, d: nat)
    requires a < b
    ensures a * d + d <= b * d
  {
    assert (b - a - 1) * d >= 0;
  }
}
