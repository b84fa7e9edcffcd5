/** Functions applied again and again, and those that respect a binary operation. */
module Iteration {
  import opened Arithmetic

  function Iter<T>(f: T -> T, y: T, n: nat): T {
    if n == 0 then y else f(Iter(f, y, n - 1))
  }

  ghost predicate Additive<T(!new)>(f: T -> T, plus: (T, T) -> T) {
    forall a, b :: AdditiveAt(f, plus, a, b)
  }

  ghost predicate AdditiveAt<T>(f: T -> T, plus: (T, T) -> T, a: T, b: T) {
    f(plus(a, b)) == plus(f(a), f(b))
  }

  lemma {:induction false} IterAdd<T>(f: T -> T, y: T, m: nat, n: nat)
    ensures Iter(f, Iter(f, y, m), n) == Iter(f, y, m + n)
  {
    if n > 0 {
      IterAdd(f, y, m, n - 1);
    }
  }

  lemma {:induction false} IterLinear<T(!new)>(f: T -> T, plus: (T, T) -> T, a: T, b: T, n: nat)
    requires Additive(f, plus)
    ensures Iter(f, plus(a, b), n) == plus(Iter(f, a, n), Iter(f, b, n))
  {
    if n > 0 {
      IterLinear(f, plus, a, b, n - 1);
      assert AdditiveAt(f, plus, Iter(f, a, n - 1), Iter(f, b, n - 1));
    }
  }

  lemma {:induction false} IterFixed<T>(f: T -> T, y: T, n: nat)
    requires f(y) == y
    ensures Iter(f, y, n) == y
  {
    if n > 0 {
      IterFixed(f, y, n - 1);
    }
  }

  // ----- periods

  /** A period can be taken off any number of steps. */
  lemma {:induction false} IterMod<T>(f: T -> T, y: T, n: nat, p: nat)
    requires p > 0 && Iter(f, y, p) == y
    ensures Iter(f, y, n) == Iter(f, y, n % p)
  {
    if n >= p {
      IterMod(f, y, n - p, p);
      IterAdd(f, y, p, n - p);
      ModMinus(n, p);
    } else {
      ModSmall(n, p);
    }
  }

  /** `p` is the least number of steps after which `y` comes back. */
  ghost predicate Least<T(!new)>(f: T -> T, y: T, p: nat) {
    p > 0 && Iter(f, y, p) == y && forall n :: 0 < n < p ==> Iter(f, y, n) != y
  }

  lemma {:induction false} LeastPeriod<T(!new)>(f: T -> T, y: T, n: nat) returns (p: nat)
    requires n > 0 && Iter(f, y, n) == y
    ensures p <= n && Least(f, y, p)
  {
    if m :| 0 < m < n && Iter(f, y, m) == y {
      p := LeastPeriod(f, y, m);
    } else {
      p := n;
    }
  }

  /** The least period divides every other. */
  lemma LeastDivides<T(!new)>(f: T -> T, y: T, p: nat, n: nat)
    requires Least(f, y, p)
    ensures Iter(f, y, n) == y <==> n % p == 0
  {
    IterMod(f, y, n, p);
  }

  ghost predicate Prime(n: nat) {
    n > 1 && forall d :: 1 < d < n ==> n % d != 0
  }

  /** If a prime number of steps is a period, no smaller one is, but for fixed points. */
  lemma PrimePeriod<T(!new)>(f: T -> T, y: T, n: nat)
    requires Prime(n) && Iter(f, y, n) == y && f(y) != y
    ensures Least(f, y, n)
  {
    var p := LeastPeriod(f, y, n);
    LeastDivides(f, y, p, n);
    assert Iter(f, y, 1) == f(Iter(f, y, 0));
  }

  // ----- the states on the way

  lemma Different<T(!new)>(f: T -> T, y: T, k: nat, m: nat, p: nat)
    requires Least(f, y, p) && k < m < p
    ensures Iter(f, y, k) != Iter(f, y, m)
  {
    IterAdd(f, y, m, p - m);
    IterAdd(f, y, k, p - m);
    assert Iter(f, y, k + (p - m)) != y;
  }

  function Orbit<T(==)>(f: T -> T, y: T, n: nat): set<T> {
    if n == 0 then {} else Orbit(f, y, n - 1) + {Iter(f, y, n - 1)}
  }

  lemma {:induction false} InOrbit<T>(f: T -> T, y: T, n: nat, x: T)
    requires x in Orbit(f, y, n)
    ensures exists k :: 0 <= k < n && x == Iter(f, y, k)
  {
    if x in Orbit(f, y, n - 1) {
      InOrbit(f, y, n - 1, x);
    } else {
      assert x == Iter(f, y, n - 1);
    }
  }

  lemma NewState<T(!new)>(f: T -> T, y: T, n: nat, p: nat)
    requires Least(f, y, p) && n < p
    ensures Iter(f, y, n) !in Orbit(f, y, n)
  {
    if Iter(f, y, n) in Orbit(f, y, n) {
      InOrbit(f, y, n, Iter(f, y, n));
      var k :| 0 <= k < n && Iter(f, y, n) == Iter(f, y, k);
      Different(f, y, k, n, p);
    }
  }

  /** Up to the least period of a state all states are different. */
  lemma {:induction false} OrbitSize<T(!new)>(f: T -> T, y: T, n: nat, p: nat)
    requires Least(f, y, p) && n <= p
    ensures |Orbit(f, y, n)| == n
  {
    if n > 0 {
      OrbitSize(f, y, n - 1, p);
      NewState(f, y, n - 1, p);
    }
  }
}
