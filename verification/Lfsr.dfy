/** The 31-bit XNOR shift register (taps 31 and 28) behind the pseudo-random memory tests,
    run on 32-bit integers. */
module Lfsr {
  const LOCKED: bv32 := 0x7fff_ffff

  /** The YLFSR macro. */
  function Ylfsr(a: bv32): bv32 {
    (a << 1) + (((a >> 30) & 1) ^ ((a >> 27) & 1) ^ 1)
  }

  /** calc_value. */
  function CalcValue(lfsr: bv32): bv32 {
    var lsb := ((lfsr >> 30) & 1) ^ ((lfsr >> 27) & 1);
    var lsb' := lsb ^ 1;
    (lfsr << 1) + lsb'
  }

  /** The state of the register: the low 31 bits. */
  function State(a: bv32): bv32 {
    a & LOCKED
  }

  /** The previous state. */
  function Back(y: bv32): bv32 {
    ((y >> 1) & 0x3fff_ffff) | ((((y >> 28) ^ y ^ 1) & 1) << 30)
  }

  function Run(a: bv32, n: nat): bv32 {
    if n == 0 then a else Ylfsr(Run(a, n - 1))
  }

  lemma TwoForms(a: bv32)
    ensures CalcValue(a) == Ylfsr(a)
  {
  }

  /** The step is well defined on states. */
  lemma StepOnState(a: bv32)
    ensures State(Ylfsr(a)) == State(Ylfsr(State(a)))
  {
  }

  /** The step is one-to-one and onto on states. */
  lemma Bijection(a: bv32)
    ensures Back(State(Ylfsr(a))) == State(a)
    ensures State(Ylfsr(Back(State(a)))) == State(a)
  {
    BackStep(a);
    StepBack(a);
  }

  lemma BackStep(a: bv32)
    ensures Back(State(Ylfsr(a))) == State(a)
  {
  }

  lemma StepBack(a: bv32)
    ensures State(Ylfsr(Back(State(a)))) == State(a)
  {
  }

  lemma OnlyFixedPoint(a: bv32)
    ensures State(Ylfsr(a)) == State(a) <==> State(a) == LOCKED
  {
  }

  /** A run of any length is locked up exactly when it began locked up. */
  lemma {:induction false} NeverLocksUp(a: bv32, n: nat)
    ensures State(Run(a, n)) == LOCKED <==> State(a) == LOCKED
  {
    if n > 0 {
      NeverLocksUp(a, n - 1);
      var x := Run(a, n - 1);
      OnlyFixedPoint(x);
      BackStep(x);
      assert Back(LOCKED) == LOCKED;
    }
  }

  /** So two consecutive values of a run differ, unless it began locked up. */
  lemma NeverRepeats(a: bv32, n: nat)
    requires State(a) != LOCKED
    ensures State(Run(a, n + 1)) != State(Run(a, n))
  {
    NeverLocksUp(a, n);
    OnlyFixedPoint(Run(a, n));
  }
}
