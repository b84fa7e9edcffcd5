/** The period of the shift register is 2^31 - 1: every state comes back after that many steps,
    and, since that number is prime, no state but the locked-up one comes back sooner. Seen from
    its locked-up state the step is a linear map f over the two-element field with
    f^32 = f^4 + f. Squaring gives f^(32m) = f^(4m) + f^m for every power m of two, so the
    powers f^(2^k) obey the recurrence x(k+5) = x(k+2) + x(k), which repeats after 31 terms:
    f^(2^31) = f. */
module LfsrPeriod {
  import opened Arithmetic
  import opened Iteration
  import opened Lfsr
  import opened Mersenne

  // ----- linear maps with f^32 = f^4 + f, over any vectors in which x + x vanishes

  ghost predicate Cancels<T(!new)>(plus: (T, T) -> T) {
    forall a, b, c :: CancelsAt(plus, a, b, c)
  }

  ghost predicate CancelsAt<T>(plus: (T, T) -> T, a: T, b: T, c: T) {
    plus(plus(a, b), plus(b, c)) == plus(a, c)
  }

  ghost predicate Trinomial<T(!new)>(f: T -> T, plus: (T, T) -> T, m: nat) {
    forall y :: TrinomialAt(f, plus, m, y)
  }

  ghost predicate TrinomialAt<T>(f: T -> T, plus: (T, T) -> T, m: nat, y: T) {
    Iter(f, y, 32 * m) == plus(Iter(f, y, 4 * m), Iter(f, y, m))
  }

  lemma Twice<T(!new)>(f: T -> T, plus: (T, T) -> T, m: nat, y: T)
    requires Additive(f, plus) && Trinomial(f, plus, m)
    ensures Iter(f, y, 64 * m) ==
            plus(Iter(f, Iter(f, y, 4 * m), 32 * m), Iter(f, Iter(f, y, m), 32 * m))
  {
    assert TrinomialAt(f, plus, m, y);
    IterAdd(f, y, 32 * m, 32 * m);
    IterLinear(f, plus, Iter(f, y, 4 * m), Iter(f, y, m), 32 * m);
  }

  lemma Applied<T(!new)>(f: T -> T, plus: (T, T) -> T, m: nat, y: T, k: nat)
    requires Trinomial(f, plus, m)
    ensures Iter(f, Iter(f, y, k), 32 * m) == plus(Iter(f, y, k + 4 * m), Iter(f, y, k + m))
  {
    assert TrinomialAt(f, plus, m, Iter(f, y, k));
    IterAdd(f, y, k, 4 * m);
    IterAdd(f, y, k, m);
  }

  /** Squaring: the cross terms cancel. */
  lemma SquareAt<T(!new)>(f: T -> T, plus: (T, T) -> T, m: nat, y: T)
    requires Additive(f, plus) && Cancels(plus) && Trinomial(f, plus, m)
    ensures TrinomialAt(f, plus, 2 * m, y)
  {
    Twice(f, plus, m, y);
    Applied(f, plus, m, y, 4 * m);
    Applied(f, plus, m, y, m);
    assert CancelsAt(plus, Iter(f, y, 8 * m), Iter(f, y, 5 * m), Iter(f, y, 2 * m));
  }

  lemma Square<T(!new)>(f: T -> T, plus: (T, T) -> T, m: nat)
    requires Additive(f, plus) && Cancels(plus) && Trinomial(f, plus, m)
    ensures Trinomial(f, plus, 2 * m)
  {
    forall y ensures TrinomialAt(f, plus, 2 * m, y) {
      SquareAt(f, plus, m, y);
    }
  }

  lemma {:induction false} Squares<T(!new)>(f: T -> T, plus: (T, T) -> T, k: nat)
    requires Additive(f, plus) && Cancels(plus) && Trinomial(f, plus, 1)
    ensures Trinomial(f, plus, Pow2(k))
  {
    if k > 0 {
      Squares(f, plus, k - 1);
      Square(f, plus, Pow2(k - 1));
    }
  }

  lemma Fifth(k: nat)
    ensures Pow2(k + 2) == 4 * Pow2(k) && Pow2(k + 5) == 32 * Pow2(k)
  {
    assert Pow2(k + 5) == 2 * Pow2(k + 4) && Pow2(k + 4) == 2 * Pow2(k + 3);
  }

  /** The powers f^(2^k) obey a recurrence. */
  lemma Recurrence<T(!new)>(f: T -> T, plus: (T, T) -> T, y: T, k: nat)
    requires Additive(f, plus) && Cancels(plus) && Trinomial(f, plus, 1)
    ensures Iter(f, y, Pow2(k + 5)) == plus(Iter(f, y, Pow2(k + 2)), Iter(f, y, Pow2(k)))
  {
    Squares(f, plus, k);
    assert TrinomialAt(f, plus, Pow2(k), y);
    Fifth(k);
  }

  // ----- the recurrence repeats after 31 terms

  ghost predicate Obeys<T(!new)>(x: seq<T>, plus: (T, T) -> T) {
    |x| == 32 && forall k :: 0 <= k < 27 ==> x[k + 5] == plus(x[k + 2], x[k])
  }

  lemma ObeysAt<T(!new)>(x: seq<T>, plus: (T, T) -> T, k: nat)
    requires Obeys(x, plus) && k < 27
    ensures x[k + 5] == plus(x[k + 2], x[k])
  {
  }

  lemma Doubled<T(!new)>(x: seq<T>, plus: (T, T) -> T, k: nat)
    requires Obeys(x, plus) && Cancels(plus) && k + 10 < 32
    ensures x[k + 10] == plus(x[k + 4], x[k])
  {
    ObeysAt(x, plus, k + 5);
    ObeysAt(x, plus, k + 2);
    ObeysAt(x, plus, k);
    assert CancelsAt(plus, x[k + 4], x[k + 2], x[k]);
  }

  lemma Again<T(!new)>(x: seq<T>, plus: (T, T) -> T, k: nat)
    requires Obeys(x, plus) && Cancels(plus) && k + 20 < 32
    ensures x[k + 20] == plus(x[k + 8], x[k])
  {
    Doubled(x, plus, k + 10);
    Doubled(x, plus, k + 4);
    Doubled(x, plus, k);
    assert CancelsAt(plus, x[k + 8], x[k + 4], x[k]);
  }

  lemma Last<T(!new)>(x: seq<T>, plus: (T, T) -> T)
    requires Obeys(x, plus) && Cancels(plus)
    ensures x[31] ==
            plus(plus(plus(plus(x[4], x[2]), x[3]), plus(plus(x[3], x[1]), x[4])), plus(plus(x[2], x[0]), x[1]))
  {
    Again(x, plus, 11);
    Doubled(x, plus, 9);
    Doubled(x, plus, 3);
    Doubled(x, plus, 1);
    ObeysAt(x, plus, 4);
    ObeysAt(x, plus, 2);
    ObeysAt(x, plus, 1);
    ObeysAt(x, plus, 0);
  }

  // ----- the step of the register, seen from the locked-up state

  function Flip(a: bv32): bv32 {
    State(a) ^ LOCKED
  }

  function L(y: bv32): bv32 {
    ((y << 1) & LOCKED) | (((y >> 30) ^ (y >> 27)) & 1)
  }

  function Xor(a: bv32, b: bv32): bv32 {
    a ^ b
  }

  lemma FlipStep(a: bv32)
    ensures Flip(Ylfsr(a)) == L(Flip(a))
  {
  }

  lemma {:induction false} FlipRun(a: bv32, n: nat)
    ensures Flip(Run(a, n)) == Iter(L, Flip(a), n)
  {
    if n > 0 {
      FlipRun(a, n - 1);
      FlipStep(Run(a, n - 1));
    }
  }

  lemma FlipIsState(a: bv32)
    ensures Flip(a) & !LOCKED == 0 && Flip(a) ^ LOCKED == State(a)
  {
  }

  lemma Linear(a: bv32, b: bv32)
    ensures L(a ^ b) == L(a) ^ L(b)
  {
  }

  lemma CancelAt(a: bv32, b: bv32, c: bv32)
    ensures Xor(Xor(a, b), Xor(b, c)) == Xor(a, c)
  {
  }

  lemma Injective(a: bv32, b: bv32)
    requires a & !LOCKED == 0 && b & !LOCKED == 0 && L(a) == L(b)
    ensures a == b
  {
  }

  function L2(y: bv32): bv32 { ((y << 2) & LOCKED) | (((y >> 29) ^ (y >> 26)) & 3) }
  function L4(y: bv32): bv32 { ((y << 4) & LOCKED) | (((y >> 27) ^ (y >> 24)) & 15) }
  function L8(y: bv32): bv32 { ((y << 8) & LOCKED) | (((y >> 23) ^ (y >> 20)) & 0xff) }
  function L16(y: bv32): bv32 { ((y << 16) & LOCKED) | (((y >> 15) ^ (y >> 12)) & 0xffff) }

  lemma Jump2(y: bv32) ensures L(L(y)) == L2(y) {}
  lemma Jump4(y: bv32) ensures L2(L2(y)) == L4(y) {}
  lemma Jump8(y: bv32) ensures L4(L4(y)) == L8(y) {}
  lemma Jump16(y: bv32) ensures L8(L8(y)) == L16(y) {}

  lemma Jump32(y: bv32)
    ensures L16(L16(y)) == Xor(L4(y), L(y))
  {
    Jump32Low(y, L16(y));
    Jump32High(y, L16(y));
    BothHalves(L16(L16(y)), Xor(L4(y), L(y)));
  }

  function Low(y: bv32): bv32 { y & 0xffff }
  function High(y: bv32): bv32 { y >> 16 }

  lemma Jump32Low(y: bv32, z: bv32)
    requires z == L16(y)
    ensures Low(L16(z)) == Low(Xor(L4(y), L(y)))
  {
  }

  lemma Jump32High(y: bv32, z: bv32)
    requires z == L16(y)
    ensures High(L16(z)) == High(Xor(L4(y), L(y)))
  {
    Shifted(z);
    Taps(y);
    HighTaps(y);
  }

  function Tap(y: bv32): bv32 { ((y >> 15) ^ (y >> 12)) & 0x7fff }

  lemma Shifted(z: bv32)
    ensures High(L16(z)) == z & 0x7fff
  {
  }

  lemma Taps(y: bv32)
    ensures L16(y) & 0x7fff == Tap(y)
  {
  }

  lemma HighTaps(y: bv32)
    ensures High(Xor(L4(y), L(y))) == Tap(y)
  {
  }

  lemma BothHalves(a: bv32, b: bv32)
    requires Low(a) == Low(b) && High(a) == High(b)
    ensures a == b
  {
  }

  lemma Iter1(y: bv32)
    ensures Iter(L, y, 1) == L(y)
  {
    assert Iter(L, y, 1) == L(Iter(L, y, 0));
  }

  lemma Iter2(y: bv32)
    ensures Iter(L, y, 2) == L2(y)
  {
    Iter1(y);
    Iter1(L(y));
    IterAdd(L, y, 1, 1);
    Jump2(y);
  }

  lemma Iter4(y: bv32)
    ensures Iter(L, y, 4) == L4(y)
  {
    Iter2(y);
    Iter2(L2(y));
    IterAdd(L, y, 2, 2);
    Jump4(y);
  }

  lemma Iter8(y: bv32)
    ensures Iter(L, y, 8) == L8(y)
  {
    Iter4(y);
    Iter4(L4(y));
    IterAdd(L, y, 4, 4);
    Jump8(y);
  }

  lemma Iter16(y: bv32)
    ensures Iter(L, y, 16) == L16(y)
  {
    Iter8(y);
    Iter8(L8(y));
    IterAdd(L, y, 8, 8);
    Jump16(y);
  }

  lemma Iter32(y: bv32)
    ensures TrinomialAt(L, Xor, 1, y)
  {
    Iter1(y);
    Iter4(y);
    Iter16(y);
    Iter16(L16(y));
    IterAdd(L, y, 16, 16);
    Jump32(y);
  }

  lemma StepIsLinear()
    ensures Additive(L, Xor) && Cancels(Xor) && Trinomial(L, Xor, 1)
  {
    forall a, b ensures AdditiveAt(L, Xor, a, b) {
      Linear(a, b);
    }
    forall a, b, c ensures CancelsAt(Xor, a, b, c) {
      CancelAt(a, b, c);
    }
    forall y ensures TrinomialAt(L, Xor, 1, y) {
      Iter32(y);
    }
  }

  // ----- the period

  function Powers(y: bv32): seq<bv32> {
    seq(32, k requires 0 <= k => Iter(L, y, Pow2(k)))
  }

  lemma PowersObey(y: bv32)
    ensures Obeys(Powers(y), Xor) && Cancels(Xor)
  {
    var x := Powers(y);
    StepIsLinear();
    forall k | 0 <= k < 27 ensures x[k + 5] == Xor(x[k + 2], x[k]) {
      Recurrence(L, Xor, y, k);
    }
  }

  lemma Power31()
    ensures Pow2(0) == 1 && Pow2(31) == 0x8000_0000
  {
    Fifth(0);
    Fifth(5);
    Fifth(10);
    Fifth(15);
    Fifth(20);
    Fifth(25);
    assert Pow2(31) == 2 * Pow2(30);
  }

  lemma Fold(b: bv32, c: bv32, d: bv32, e: bv32)
    ensures Xor(Xor(Xor(e, c), d), Xor(Xor(d, b), e)) == Xor(c, b)
  {
  }

  lemma Closes(a: bv32, b: bv32, c: bv32)
    ensures Xor(Xor(c, b), Xor(Xor(c, a), b)) == a
  {
  }

  lemma Repeats(x: seq<bv32>)
    requires Obeys(x, Xor) && Cancels(Xor)
    ensures x[31] == x[0]
  {
    Last(x, Xor);
    Fold(x[1], x[2], x[3], x[4]);
    Closes(x[0], x[1], x[2]);
  }

  lemma PowersRepeat(y: bv32)
    ensures Iter(L, y, Pow2(31)) == Iter(L, y, Pow2(0))
  {
    var x := Powers(y);
    PowersObey(y);
    Repeats(x);
    assert x[31] == Iter(L, y, Pow2(31)) && x[0] == Iter(L, y, Pow2(0));
  }

  lemma Cycle(y: bv32)
    ensures L(Iter(L, y, 0x7fff_ffff)) == L(y)
  {
    PowersRepeat(y);
    Power31();
    Iter1(y);
    assert Iter(L, y, 0x8000_0000) == L(Iter(L, y, 0x7fff_ffff));
  }

  lemma Closed(y: bv32)
    requires y & !LOCKED == 0
    ensures Iter(L, y, M31) == y
  {
    Cycle(y);
    IterStays(y, M31);
    Injective(y, Iter(L, y, M31));
  }

  lemma {:induction false} IterStays(y: bv32, n: nat)
    requires y & !LOCKED == 0
    ensures Iter(L, y, n) & !LOCKED == 0
  {
    if n > 0 {
      Stays(Iter(L, y, n - 1));
    }
  }

  lemma Stays(y: bv32)
    ensures L(y) & !LOCKED == 0
  {
  }

  lemma NoFixedPoint(y: bv32)
    requires y & !LOCKED == 0 && y != 0
    ensures L(y) != y
  {
  }

  lemma SameFlip(a: bv32, b: bv32)
    ensures State(a) == State(b) <==> Flip(a) == Flip(b)
  {
    if Flip(a) == Flip(b) {
      FlipIsState(a);
      FlipIsState(b);
    }
  }

  lemma LockedFlip(a: bv32)
    ensures State(a) == LOCKED <==> Flip(a) == 0
  {
  }

  /** The exact period: a run that did not begin locked up is back in its first state after
      n steps exactly when 2^31 - 1 divides n. */
  lemma ExactPeriod(a: bv32, n: nat)
    requires State(a) != LOCKED
    ensures State(Run(a, n)) == State(a) <==> n % 0x7fff_ffff == 0
  {
    var y := Flip(a);
    FlipIsState(a);
    SameFlip(a, Run(a, n));
    LockedFlip(a);
    Closed(y);
    NoFixedPoint(y);
    MersennePrime();
    PrimePeriod(L, y, M31);
    LeastDivides(L, y, M31, n);
    FlipRun(a, n);
  }

  /** Every run, locked up or not, is back in its first state after 2^31 - 1 steps. */
  lemma Period(a: bv32)
    ensures State(Run(a, 0x7fff_ffff)) == State(a)
  {
    if State(a) == LOCKED {
      NeverLocksUp(a, 0x7fff_ffff);
    } else {
      ExactPeriod(a, 0x7fff_ffff);
    }
  }

  lemma {:induction false} RunAdd(a: bv32, m: nat, n: nat)
    ensures Run(Run(a, m), n) == Run(a, m + n)
  {
    if n > 0 {
      RunAdd(a, m, n - 1);
    }
  }

  /** So the words of a pseudo-random test go through different states, in any range of up to
      2^31 - 1 words. */
  lemma AllDifferent(a: bv32, i: nat, j: nat)
    requires State(a) != LOCKED && i < j < i + 0x7fff_ffff
    ensures State(Run(a, i)) != State(Run(a, j))
  {
    NeverLocksUp(a, i);
    RunAdd(a, i, j - i);
    Different(Run(a, i), Run(a, j), j - i);
  }

  lemma Different(b: bv32, c: bv32, n: nat)
    requires State(b) != LOCKED && c == Run(b, n) && 0 < n < 0x7fff_ffff
    ensures State(b) != State(c)
  {
    NotAMultiple(n);
    ExactPeriod(b, n);
  }

  lemma NotAMultiple(k: nat)
    requires 0 < k < 0x7fff_ffff
    ensures k % 0x7fff_ffff != 0
  {
  }
}
