/** measure_read_eye: the read-eye sweep with the controller registers it changes around
    each nested memory test. The registers are plain storage here. */
module ReadEye {
  import opened Arithmetic
  import opened ByteOrder
  import opened EyeGrid
  import opened EyeSweep
  import opened MemTest
  import opened Patterns

  /** The eleven registers: control, two training registers, and per lane the read-strobe
      and the gate delay. */
  datatype Regs = Regs(r00: Word, r2c: Word, r65: Word, r50: seq<Word>, r5a: seq<Word>)

  predicate Enabled(r00: Word) {
    r00 % 2 == 1
  }

  /** r00 & 0xfffffffe. */
  function Disabled(r00: Word): Word {
    r00 - r00 % 2
  }

  /** v & ~(1 << 28), and v & ~(1 << 16). */
  function Clear28(v: Word): Word {
    if v / 0x1000_0000 % 2 == 1 then v - 0x1000_0000 else v
  }

  function Clear16(v: Word): Word {
    if v / 0x1_0000 % 2 == 1 then v - 0x1_0000 else v
  }

  /** Exactly bit 0, bit 28 and bit 16 are cleared: the bits below and above stay. */
  lemma Cleared0(v: Word)
    ensures !Enabled(Disabled(v)) && Disabled(v) / 2 == v / 2
  {
  }

  lemma Cleared28(v: Word)
    ensures Clear28(v) / 0x1000_0000 % 2 == 0
    ensures Clear28(v) / 0x2000_0000 == v / 0x2000_0000 && Clear28(v) % 0x1000_0000 == v % 0x1000_0000
  {
    Split(v, 0x1000_0000);
    Digits(v / 0x2000_0000, 0, v % 0x1000_0000, 0x1000_0000, Clear28(v));
  }

  lemma Cleared16(v: Word)
    ensures Clear16(v) / 0x1_0000 % 2 == 0
    ensures Clear16(v) / 0x2_0000 == v / 0x2_0000 && Clear16(v) % 0x1_0000 == v % 0x1_0000
  {
    Split(v, 0x1_0000);
    Digits(v / 0x2_0000, 0, v % 0x1_0000, 0x1_0000, Clear16(v));
  }

  lemma Digits(q: nat, b: nat, r: nat, p: nat, x: nat)
    requires b < 2 && r < p && x == q * (2 * p) + b * p + r
    ensures x / p % 2 == b && x / (2 * p) == q && x % p == r
  {
    var rest := if b == 0 then r else p + r;
    Regroup(q, b, p);
    DivMod(2 * q + b, p, r);
    DivMod(q, 2 * p, rest);
  }

  lemma Regroup(q: nat, b: nat, p: nat)
    ensures (2 * q + b) * p == q * (2 * p) + b * p
  {
  }

  lemma Split(v: nat, p: nat)
    requires p > 0
    ensures v == v / (2 * p) * (2 * p) + v / p % 2 * p + v % p
  {
    var q, b, r := v / p / 2, v / p % 2, v % p;
    assert v == v / p * p + r;
    Regroup(q, b, p);
    Digits(q, b, r, p, v);
  }

  /** The gate delay that keeps its distance from the strobe: 32-bit ratio + (gate - strobe). */
  function Gate(ratio: int, gate: Word, strobe: Word): Word {
    (ratio + gate - strobe) % 0x1_0000_0000
  }

  /** The history of a sweep: a write to a register other than R00, with the state of the
      controller at that moment, or a nested memory test at some offset. */
  datatype Step =
    | Wrote(enabled: bool)
    | Tested(offset: int, regs: Regs)

  /** Every write happened with the controller disabled, and every test ran with R00 as
      saved, training off, all strobes at the offset and all gates moved along. */
  ghost predicate Safe(history: seq<Step>, saved: Regs)
    requires |saved.r50| == |saved.r5a| == 4
  {
    forall s :: s in history ==>
      match s
      case Wrote(enabled) => !enabled
      case Tested(i, regs) => AtOffset(regs, saved, i)
  }

  ghost predicate AtOffset(regs: Regs, saved: Regs, i: int)
    requires |saved.r50| == |saved.r5a| == 4
  {
    && regs.r00 == saved.r00 && regs.r2c == Clear28(saved.r2c) && regs.r65 == Clear16(saved.r65)
    && |regs.r50| == |regs.r5a| == 4
    && forall j :: 0 <= j < 4 ==> regs.r50[j] == i && regs.r5a[j] == Gate(i, saved.r5a[j], saved.r50[j])
  }

  /** The gates keep their distance from the strobes, modulo 2^32. */
  lemma GateMovesAlong(regs: Regs, saved: Regs, i: int, j: nat)
    requires |saved.r50| == |saved.r5a| == 4 && AtOffset(regs, saved, i) && j < 4
    ensures regs.r50[j] == i
    ensures var gate: int, strobe: int := regs.r5a[j], regs.r50[j];
            var gate0: int, strobe0: int := saved.r5a[j], saved.r50[j];
            (gate - strobe) % 0x1_0000_0000 == (gate0 - strobe0) % 0x1_0000_0000
  {
  }

  /** Between tests: training is off, everything else may be anything. */
  ghost predicate Training(regs: Regs, saved: Regs) {
    && |saved.r50| == |saved.r5a| == 4 && |regs.r50| == |regs.r5a| == 4
    && regs.r2c == Clear28(saved.r2c) && regs.r65 == Clear16(saved.r65)
  }

  /** Only writes with the controller disabled were added to the history. */
  ghost predicate OnlyWrites(before: seq<Step>, after: seq<Step>) {
    before <= after && forall k :: |before| <= k < |after| ==> after[k] == Wrote(false)
  }

  /** The offsets of the nested tests in a history. */
  function TestedOffsets(history: seq<Step>): seq<int> {
    if history == [] then []
    else
      var last := history[|history| - 1];
      TestedOffsets(history[..|history| - 1]) + if last.Tested? then [last.offset] else []
  }

  lemma {:induction false} SameTests(before: seq<Step>, after: seq<Step>)
    requires OnlyWrites(before, after)
    ensures TestedOffsets(after) == TestedOffsets(before)
  {
    if |after| == |before| {
      assert after == before;
    } else {
      SameTests(before, after[..|after| - 1]);
    }
  }

  lemma SafeMore(before: seq<Step>, after: seq<Step>, saved: Regs)
    requires |saved.r50| == |saved.r5a| == 4 && Safe(before, saved) && OnlyWrites(before, after)
    ensures Safe(after, saved) && TestedOffsets(after) == TestedOffsets(before)
  {
    SameTests(before, after);
    forall s | s in after
      ensures match s case Wrote(enabled) => !enabled case Tested(i, regs) => AtOffset(regs, saved, i)
    {
      var k :| 0 <= k < |after| && after[k] == s;
      if k < |before| {
        assert s in before;
      }
    }
  }

  lemma DisabledIsOff(r00: Word)
    ensures !Enabled(Disabled(r00))
  {
  }

  class Controller {
    var regs: Regs
    ghost var history: seq<Step>
    ghost var trace: Trace      // the nested tests and what they showed

    ghost predicate Valid()
      reads this
    {
      |regs.r50| == |regs.r5a| == 4
    }

    /** During a sweep. */
    ghost predicate Holds(saved: Regs)
      reads this
    {
      Training(regs, saved) && Safe(history, saved) && TestedOffsets(history) == OffsetsOf(trace.outcomes)
    }

    constructor (regs: Regs)
      requires |regs.r50| == |regs.r5a| == 4
      ensures Valid() && this.regs == regs && history == []
    {
      this.regs := regs;
      history := [];
      trace := Trace([], (_, _) => false);
    }

    method WriteR00(v: Word)
      modifies `regs
      ensures regs == old(regs).(r00 := v)
    {
      regs := regs.(r00 := v);
    }

    /** The writes to R2C and R65. */
    method WriteTraining(r2c: Word, r65: Word)
      modifies `regs, `history
      ensures regs == old(regs).(r2c := r2c, r65 := r65)
      ensures history == old(history) + [Wrote(Enabled(regs.r00)), Wrote(Enabled(regs.r00))]
    {
      regs := regs.(r2c := r2c);
      regs := regs.(r65 := r65);
      history := history + [Wrote(Enabled(regs.r00)), Wrote(Enabled(regs.r00))];
    }

    /** The loop that writes both delays of every lane. */
    method WriteDelays(r50: seq<Word>, r5a: seq<Word>)
      requires Valid() && |r50| == |r5a| == 4 && !Enabled(regs.r00)
      modifies `regs, `history
      ensures regs == old(regs).(r50 := r50, r5a := r5a)
      ensures OnlyWrites(old(history), history)
    {
      for j := 0 to 4
        invariant Valid() && regs == old(regs).(r50 := regs.r50, r5a := regs.r5a)
        invariant forall l :: 0 <= l < j ==> regs.r50[l] == r50[l] && regs.r5a[l] == r5a[l]
        invariant OnlyWrites(old(history), history)
      {
        regs := regs.(r50 := regs.r50[j := r50[j]]);
        regs := regs.(r5a := regs.r5a[j := r5a[j]]);
        history := history + [Wrote(Enabled(regs.r00)), Wrote(Enabled(regs.r00))];
      }
    }

    /** The registers for one nested memory test: delays set with the controller off, then
        R00 as saved. */
    method SetUpTest(i: int, saved: Regs)
      requires 0 <= i <= 128 && Training(regs, saved) && Safe(history, saved)
      modifies `regs, `history
      ensures Training(regs, saved) && Safe(history, saved)
      ensures TestedOffsets(history) == TestedOffsets(old(history)) + [i]
    {
      DisabledIsOff(saved.r00);
      WriteR00(Disabled(saved.r00));
      var gates := [Gate(i, saved.r5a[0], saved.r50[0]), Gate(i, saved.r5a[1], saved.r50[1]),
                    Gate(i, saved.r5a[2], saved.r50[2]), Gate(i, saved.r5a[3], saved.r50[3])];
      ghost var before := history;
      WriteDelays([i, i, i, i], gates);
      SafeMore(before, history, saved);
      WriteR00(saved.r00);
      history := history + [Tested(i, regs)];
    }

    /** One side of the sweep. */
    method Walk(t: Tester, s: Sweep, k: nat, saved: Regs, lo0: seq<int>, hi0: seq<int>,
                ghost rest: Oracle, ghost done: nat)
      returns (lo: seq<int>, hi: seq<int>, ghost n: nat)
      requires t.errBuf.Length == 256 && k < 2
      requires Holds(saved) && OnSide(s, trace, rest, t.dram, k, done, 0, lo0, hi0, false)
      modifies this, t, t.errBuf
      ensures Holds(saved) && OnSide(s, trace, rest, t.dram, k, done, n, lo, hi, true)
    {
      lo, hi, n := lo0, hi0, 0;
      var m, stop := 0, false;
      while m <= MMax(s.step) && !stop
        invariant m == n && Holds(saved) && OnSide(s, trace, rest, t.dram, k, done, n, lo, hi, stop)
        decreases MMax(s.step) - m, !stop
      {
        var i := Offset(s.step, k, m);
        CountIsRange(s.step, k, m);
        if i < 0 || i > 128 { break; }
        SetUpTest(i, saved);
        lo, hi, stop, trace := NestedTest(t, s, k, i, lo, hi, trace, rest, done, n);
        n := n + 1;
        m := m + 1;
      }
    }

    method BothSides(t: Tester, s: Sweep, saved: Regs, ghost rest: Oracle)
      returns (lo: seq<int>, hi: seq<int>, ghost n0: nat, ghost n1: nat)
      requires t.errBuf.Length == 256 && Holds(saved) && trace == Trace([], rest)
      modifies this, t, t.errBuf
      ensures Holds(saved) && OnSide(s, trace, rest, t.dram, 1, n0, n1, lo, hi, true)
    {
      lo, hi := NoLo(), NoHi();
      FirstSide(s, rest, t.dram);
      lo, hi, n0 := Walk(t, s, 0, saved, lo, hi, rest, 0);
      SecondSide(s, trace, rest, t.dram, n0, lo, hi);
      lo, hi, n1 := Walk(t, s, 1, saved, lo, hi, rest, n0);
    }

    /** measure_read_eye over every memory: on return all eleven registers hold their entry
        values; R2C, R65 and the delays were written only with the controller disabled, and
        every nested test ran with R00 as saved; the results are those of the tests, and the
        true ends exactly for lanes without an island. */
    method MeasureReadEye(t: Tester, c: Config, fast: bool, fastIsBc: bool, step: int, ghost rest: Oracle)
      returns (result: seq<int>)
      requires Valid() && t.errBuf.Length == 256 && history == []
      modifies this, t, t.errBuf
      ensures regs == old(regs) && Safe(history, old(regs)) && TestedOffsets(history) == OffsetsOf(trace.outcomes)
      ensures var s := Sweep(step, c.(loop := 0), Selection(fast, fastIsBc));
              Small(s) ==>
                Conducted(s, trace, rest, t.dram) && Measured(step, trace.outcomes, trace.pass, t.dram, result)
    {
      var saved := regs;
      DisabledIsOff(saved.r00);
      WriteR00(Disabled(saved.r00));
      WriteTraining(Clear28(saved.r2c), Clear16(saved.r65));
      SafeMore([], history, saved);
      trace := Trace([], rest);
      var s := Sweep(step, c.(loop := 0), Selection(fast, fastIsBc));
      var lo, hi;
      ghost var n0, n1;
      lo, hi, n0, n1 := BothSides(t, s, saved, rest);
      Restore(saved);
      Finish(s, trace, rest, t.dram, n0, n1, lo, hi);
      result := Interleave(lo, hi);
    }

    method Restore(saved: Regs)
      requires Training(regs, saved) && Safe(history, saved)
      modifies `regs, `history
      ensures regs == saved && Safe(history, saved) && TestedOffsets(history) == TestedOffsets(old(history))
    {
      DisabledIsOff(saved.r00);
      WriteR00(Disabled(saved.r00));
      ghost var start := history;
      WriteTraining(saved.r2c, saved.r65);
      SafeMore(start, history, saved);
      ghost var before := history;
      WriteDelays(saved.r50, saved.r5a);
      SafeMore(before, history, saved);
      WriteR00(saved.r00);
    }
  }
}
