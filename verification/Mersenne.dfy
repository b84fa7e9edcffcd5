/** 2^31 - 1 is a prime number, by the test of Lucas and Lehmer. The powers of 2 + w with
    w * w = 3 are numbers A + B w. If the A of the 2^29-th power is 0 modulo a number q, then
    modulo q the least period of the powers is 2^31, so there are 2^31 different pairs of
    remainders; hence q * q >= 2^31, and no such q can be the smaller of two factors. */
module Mersenne {
  import opened Arithmetic
  import opened Iteration

  const M31: nat := 0x7fff_ffff

  // ----- the powers of 2 + w

  /** A and B of the n-th power. */
  function A(n: nat): int {
    if n == 0 then 1 else 2 * A(n - 1) + 3 * B(n - 1)
  }

  function B(n: nat): int {
    if n == 0 then 0 else A(n - 1) + 2 * B(n - 1)
  }

  lemma Expand(a: int, b: int, c: int, d: int)
    ensures 2 * (a * c + 3 * (b * d)) + 3 * (a * d + b * c) == a * (2 * c + 3 * d) + 3 * (b * (c + 2 * d))
    ensures (a * c + 3 * (b * d)) + 2 * (a * d + b * c) == a * (c + 2 * d) + b * (2 * c + 3 * d)
  {
  }

  lemma {:induction false} Product(m: nat, n: nat)
    ensures A(m + n) == A(m) * A(n) + 3 * (B(m) * B(n))
    ensures B(m + n) == A(m) * B(n) + B(m) * A(n)
  {
    if n > 0 {
      Product(m, n - 1);
      Expand(A(m), B(m), A(n - 1), B(n - 1));
    }
  }

  lemma NormStep(a: int, b: int)
    requires a * a - 3 * (b * b) == 1
    ensures (2 * a + 3 * b) * (2 * a + 3 * b) - 3 * ((a + 2 * b) * (a + 2 * b)) == 1
  {
  }

  /** (2 + w) (2 - w) = 1. */
  lemma {:induction false} Norm(n: nat)
    ensures A(n) * A(n) - 3 * (B(n) * B(n)) == 1
  {
    if n > 0 {
      Norm(n - 1);
      NormStep(A(n - 1), B(n - 1));
    }
  }

  /** A and B of the double power. */
  function DoubleA(a: int): int {
    2 * (a * a) - 1
  }

  function DoubleB(a: int, b: int): int {
    2 * (a * b)
  }

  lemma Doubled(n: nat)
    ensures A(2 * n) == DoubleA(A(n)) && B(2 * n) == DoubleB(A(n), B(n))
  {
    Product(n, n);
    Norm(n);
  }

  // ----- the test: A(2^29) is a multiple of 2^31 - 1

  lemma SquareMod(a: int, d: nat)
    requires d > 0
    ensures DoubleA(a) % d == DoubleA(a % d) % d
  {
    var k, r := a / d, a % d;
    assert a == k * d + r;
    SquareOfSum(k, d, r);
    ModPlus(DoubleA(r), 2 * (k * k * d) + 4 * (k * r), d);
  }

  lemma SquareOfSum(k: int, d: int, r: int)
    ensures DoubleA(k * d + r) == DoubleA(r) + (2 * (k * k * d) + 4 * (k * r)) * d
  {
  }

  /** From the remainder of A(n) modulo 2^31 - 1 to that of A(2n). */
  function Square(r: int): int {
    DoubleA(r) % 0x7fff_ffff
  }

  lemma {:induction false} Remainder(i: nat)
    ensures A(Pow2(i)) % M31 == Iter(Square, 2, i)
  {
    if i > 0 {
      Remainder(i - 1);
      Doubled(Pow2(i - 1));
      SquareMod(A(Pow2(i - 1)), M31);
    } else {
      assert A(1) == 2 * A(0) + 3 * B(0);
    }
  }

  lemma Next(start: int, n: nat, r: int, r': int)
    requires Iter(Square, start, n) == r && Square(r) == r'
    ensures Iter(Square, start, n + 1) == r'
  {
  }

  lemma SquaringsTo10()
    ensures Iter(Square, 2, 10) == 1022251061
  {
    Next(2, 0, 2, 7);
    Next(2, 1, 7, 97);
    Next(2, 2, 97, 18817);
    Next(2, 3, 18817, 708158977);
    Next(2, 4, 708158977, 334835419);
    Next(2, 5, 334835419, 2042371533);
    Next(2, 6, 2042371533, 212706801);
    Next(2, 7, 212706801, 421007138);
    Next(2, 8, 421007138, 6346213);
    Next(2, 9, 6346213, 1022251061);
  }

  lemma SquaringsTo20()
    ensures Iter(Square, 1022251061, 10) == 996212859
  {
    Next(1022251061, 0, 1022251061, 1633461177);
    Next(1022251061, 1, 1633461177, 595037635);
    Next(1022251061, 2, 595037635, 1799120754);
    Next(1022251061, 3, 1799120754, 438833264);
    Next(1022251061, 4, 438833264, 1389168750);
    Next(1022251061, 5, 1389168750, 1543902459);
    Next(1022251061, 6, 1543902459, 1330239767);
    Next(1022251061, 7, 1330239767, 1420207432);
    Next(1022251061, 8, 1420207432, 2015554631);
    Next(1022251061, 9, 2015554631, 996212859);
  }

  lemma SquaringsTo29()
    ensures Iter(Square, 996212859, 9) == 0
  {
    Next(996212859, 0, 996212859, 1434706457);
    Next(996212859, 1, 1434706457, 13610297);
    Next(996212859, 2, 13610297, 785043271);
    Next(996212859, 3, 785043271, 838195206);
    Next(996212859, 4, 838195206, 579625837);
    Next(996212859, 5, 579625837, 1179735656);
    Next(996212859, 6, 1179735656, 590768354);
    Next(996212859, 7, 590768354, 32768);
    Next(996212859, 8, 32768, 0);
  }

  /** The test. */
  lemma TestPasses(i: nat)
    requires i == 29
    ensures A(Pow2(i)) % M31 == 0
  {
    SquaringsTo10();
    SquaringsTo20();
    SquaringsTo29();
    IterAdd(Square, 2, 10, 10);
    IterAdd(Square, 2, 20, 9);
    Remainder(i);
  }

  // ----- powers modulo a divisor q of 2^31 - 1

  /** Multiplication by 2 + w, modulo q. */
  function Step(q: nat): ((int, int)) -> (int, int)
    requires q > 0
  {
    (y: (int, int)) => ((2 * y.0 + 3 * y.1) % q, (y.0 + 2 * y.1) % q)
  }

  lemma StepMod(a: int, b: int, q: nat)
    requires q > 0
    ensures (2 * (a % q) + 3 * (b % q)) % q == (2 * a + 3 * b) % q
    ensures ((a % q) + 2 * (b % q)) % q == (a + 2 * b) % q
  {
    Combined(2, 3, a, b, q, a / q, b / q, a % q, b % q);
    Combined(1, 2, a, b, q, a / q, b / q, a % q, b % q);
  }

  /** A linear combination may be reduced before or after. */
  lemma Combined(u: int, v: int, a: int, b: int, q: nat, k: int, l: int, r: int, t: int)
    requires q > 0 && a == k * q + r && b == l * q + t
    ensures (u * r + v * t) % q == (u * a + v * b) % q
  {
    Regroup(u, v, k, l, q, r, t);
    ModPlus(u * r + v * t, u * k + v * l, q);
  }

  lemma Regroup(u: int, v: int, k: int, l: int, q: int, r: int, t: int)
    ensures u * (k * q + r) + v * (l * q + t) == u * r + v * t + (u * k + v * l) * q
  {
  }

  lemma {:induction false} PowersMod(q: nat, n: nat)
    requires q > 1
    ensures Iter(Step(q), (1, 0), n) == (A(n) % q, B(n) % q)
  {
    if n > 0 {
      PowersMod(q, n - 1);
      StepMod(A(n - 1), B(n - 1), q);
    }
  }

  lemma Divides(a: int, m: nat, q: nat) returns (t: int)
    requires q > 0 && m > 0 && m % q == 0 && a % m == 0
    ensures a == t * q
  {
    var k, l := a / m, m / q;
    t := k * l;
    assert a == k * m && m == l * q;
    assert k * (l * q) == k * l * q;
  }

  /** If A(n) is a multiple of q, power number 2n is -1 modulo q, and power number 4n is 1. */
  lemma HalfTurn(q: nat, n: nat, t: int)
    requires q > 2 && A(n) == t * q
    ensures A(2 * n) % q == q - 1 && B(2 * n) % q == 0
  {
    Doubled(n);
    HalfA(q, A(n), t);
    HalfB(q, A(n), B(n), t);
  }

  lemma HalfA(q: nat, a: int, t: int)
    requires q > 2 && a == t * q
    ensures DoubleA(a) % q == q - 1
  {
    assert DoubleA(t * q) == (2 * (t * (t * q)) - 1) * q + (q - 1);
    DivMod(2 * (t * (t * q)) - 1, q, q - 1);
  }

  lemma HalfB(q: nat, a: int, b: int, t: int)
    requires q > 2 && a == t * q
    ensures DoubleB(a, b) % q == 0
  {
    assert DoubleB(t * q, b) == 2 * (t * b) * q + 0;
    DivMod(2 * (t * b), q, 0);
  }

  lemma FullTurn(q: nat, n: nat)
    requires q > 2 && A(n) % q == q - 1 && B(n) % q == 0
    ensures A(2 * n) % q == 1 && B(2 * n) % q == 0
  {
    var u, v := Quotients(A(n), B(n), q);
    Doubled(n);
    FullA(q, A(n), u);
    FullB(q, A(n), B(n), v);
  }

  lemma Quotients(a: int, b: int, q: nat) returns (u: int, v: int)
    requires q > 2 && a % q == q - 1 && b % q == 0
    ensures a == u * q - 1 && b == v * q
  {
    u, v := a / q + 1, b / q;
    assert a == a / q * q + (q - 1) && b == b / q * q;
    assert u * q == a / q * q + q;
  }

  lemma FullA(q: nat, a: int, u: int)
    requires q > 2 && a == u * q - 1
    ensures DoubleA(a) % q == 1
  {
    assert DoubleA(u * q - 1) == (2 * (u * (u * q)) - 4 * u) * q + 1;
    DivMod(2 * (u * (u * q)) - 4 * u, q, 1);
  }

  lemma FullB(q: nat, a: int, b: int, v: int)
    requires q > 2 && b == v * q
    ensures DoubleB(a, b) % q == 0
  {
    assert DoubleB(a, v * q) == 2 * (a * v) * q + 0;
    DivMod(2 * (a * v), q, 0);
  }

  // ----- the least period of the powers modulo q is 2^31

  lemma {:induction false} OddDivisor(m: nat, k: nat)
    requires m % 2 == 1 && Pow2(k) % m == 0
    ensures m == 1
  {
    if k > 0 {
      var t := Pow2(k) / m;
      assert Pow2(k) == t * m;
      EvenFactor(t, m);
      var h := t / 2;
      assert 2 * Pow2(k - 1) == 2 * h * m;
      assert Pow2(k - 1) == h * m + 0;
      DivMod(h, m, 0);
      OddDivisor(m, k - 1);
    } else if m > 1 {
      DivMod(0, m, 1);
    }
  }

  lemma EvenFactor(t: int, m: int)
    requires m % 2 == 1 && t * m % 2 == 0
    ensures t % 2 == 0
  {
    if t % 2 == 1 {
      OddProduct(t, m);
    }
  }

  lemma OddProduct(t: int, m: int)
    requires t % 2 == 1 && m % 2 == 1
    ensures t * m % 2 == 1
  {
    var a, b := t / 2, m / 2;
    OddTerms(a, b);
    DivMod(2 * (a * b) + a + b, 2, 1);
  }

  lemma OddTerms(a: int, b: int)
    ensures (2 * a + 1) * (2 * b + 1) == (2 * (a * b) + a + b) * 2 + 1
  {
  }

  /** A divisor of 2^(k+1) that does not divide 2^k is 2^(k+1). */
  lemma WholePower(p: nat, k: nat)
    requires p > 0 && Pow2(k + 1) % p == 0 && Pow2(k) % p != 0
    ensures p == Pow2(k + 1)
  {
    var m := Pow2(k + 1) / p;
    assert Pow2(k + 1) == m * p;
    if m % 2 == 0 {
      assert Pow2(k) == m / 2 * p + 0;
      DivMod(m / 2, p, 0);
    } else {
      assert Pow2(k + 1) == p * m + 0;
      DivMod(p, m, 0);
      OddDivisor(m, k + 1);
    }
  }

  lemma PeriodOfPowers(q: nat, i: nat)
    requires q > 2 && M31 % q == 0 && i == 29
    ensures Least(Step(q), (1, 0), Pow2(i + 2))
  {
    TestPasses(i);
    var t := Divides(A(Pow2(i)), M31, q);
    HalfTurn(q, Pow2(i), t);
    FullTurn(q, Pow2(i + 1));
    PowersMod(q, Pow2(i + 1));
    PowersMod(q, Pow2(i + 2));
    var p := LeastPeriod(Step(q), (1, 0), Pow2(i + 2));
    LeastDivides(Step(q), (1, 0), p, Pow2(i + 2));
    LeastDivides(Step(q), (1, 0), p, Pow2(i + 1));
    WholePower(p, i + 1);
  }

  // ----- counting

  function Row(a: int, n: nat): set<(int, int)> {
    if n == 0 then {} else Row(a, n - 1) + {(a, n - 1)}
  }

  function Grid(m: nat, n: nat): set<(int, int)> {
    if m == 0 then {} else Grid(m - 1, n) + Row(m - 1, n)
  }

  lemma {:induction false} InRow(a: int, n: nat, x: (int, int))
    ensures x in Row(a, n) <==> x.0 == a && 0 <= x.1 < n
    ensures |Row(a, n)| <= n
  {
    if n > 0 {
      InRow(a, n - 1, x);
    }
  }

  lemma {:induction false} InGrid(m: nat, n: nat, x: (int, int))
    ensures x in Grid(m, n) <==> 0 <= x.0 < m && 0 <= x.1 < n
    ensures |Grid(m, n)| <= m * n
  {
    if m > 0 {
      InGrid(m - 1, n, x);
      InRow(m - 1, n, x);
      assert (m - 1) * n + n == m * n;
    }
  }

  lemma {:induction false} SubsetSize<T>(a: set<T>, b: set<T>)
    requires a <= b
    ensures |a| <= |b|
  {
    if a != {} {
      var x :| x in a;
      SubsetSize(a - {x}, b - {x});
    }
  }

  /** A divisor above 2 is at least the square root of 2^31. */
  lemma LargeDivisor(q: nat, i: nat)
    requires q > 2 && M31 % q == 0 && i == 29
    ensures q * q >= Pow2(i + 2)
  {
    var n := Pow2(i + 2);
    PeriodOfPowers(q, i);
    OrbitSize(Step(q), (1, 0), n, n);
    var o := Orbit(Step(q), (1, 0), n);
    forall x | x in o ensures x in Grid(q, q) {
      InOrbit(Step(q), (1, 0), n, x);
      var k :| 0 <= k < n && x == Iter(Step(q), (1, 0), k);
      PowersMod(q, k);
      InGrid(q, q, x);
    }
    SubsetSize(o, Grid(q, q));
    InGrid(q, q, (0, 0));
  }

  lemma AtLeast(q: nat)
    requires q * q >= 0x8000_0000
    ensures q >= 46341
  {
    if q <= 46340 {
      ProductMonotone(q, q, 46340, 46340);
    }
  }

  lemma ProductMonotone(a: nat, b: nat, c: nat, d: nat)
    requires a <= c && b <= d
    ensures a * b <= c * d
  {
    Monotone(a, c, b);
    Monotone(b, d, c);
  }

  lemma Pow31(i: nat)
    requires i == 29
    ensures Pow2(i + 2) == 0x8000_0000
  {
    assert Pow2(8) == 0x100 && Pow2(16) == 0x1_0000 && Pow2(24) == 0x100_0000 && Pow2(31) == 0x8000_0000;
  }

  lemma NoDivisor(d: nat)
    requires 1 < d < M31
    ensures M31 % d != 0
  {
    if M31 % d == 0 {
      var e := M31 / d;
      assert M31 == e * d;
      assert e * d == d * e + 0;
      DivMod(d, e, 0);
      Pow31(29);
      LargeDivisor(d, 29);
      LargeDivisor(e, 29);
      AtLeast(d);
      AtLeast(e);
      ProductMonotone(46341, 46341, d, e);
    }
  }

  lemma MersennePrime()
    ensures Prime(M31)
  {
    forall d | 1 < d < M31 ensures M31 % d != 0 {
      NoDivisor(d);
    }
  }
}
