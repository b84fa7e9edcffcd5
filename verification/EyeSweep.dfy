/** An eye sweep with its nested memory tests. Whether a lane passes at an offset is the
    verdict of memtest_all there; what it would do at offsets that are not tested is left
    open (`rest`). */
module EyeSweep {
  import opened Arithmetic
  import opened BitSet
  import opened EyeGrid
  import opened MemTest
  import opened MemTestAll
  import opened Patterns

  /** The tests of a sweep: 0x0180, 0x0E00 or 0x1E60, depending on two flags. */
  function Selection(fast: bool, fastIsBc: bool): bv32 {
    if fastIsBc then (if fast then 0x0180 else 0x0E00) else if fast then 0x0E00 else 0x1E60
  }

  /** Which tests these are. */
  lemma SelectionIs(fast: bool, fastIsBc: bool, m: nat)
    requires m < 15
    ensures Chosen(Selection(fast, fastIsBc))[m] <==>
            if fast && fastIsBc then 7 <= m <= 8
            else if fast || fastIsBc then 9 <= m <= 11
            else 5 <= m <= 6 || 9 <= m <= 12
  {
  }

  // ----- what the nested tests show

  /** A nested test: its offset, the random seed before it and its read passes. */
  datatype Outcome = Outcome(offset: int, rseed: int, passes: seq<Pass>)

  function OffsetsOf(outcomes: seq<Outcome>): (offsets: seq<int>)
    ensures |offsets| == |outcomes|
  {
    seq(|outcomes|, k requires 0 <= k < |outcomes| => outcomes[k].offset)
  }

  /** The oracle says of an offset what the test there found in the whole range, lane by lane. */
  ghost predicate Witness(o: Outcome, pass: Oracle, dram: Dram, c: Config, sel: bv32) {
    && Ran(o.passes, Chosen(sel), 15, c, o.rseed)
    && forall j :: 0 <= j < 4 ==> (pass(o.offset, j) <==> AllLaneClean(o.passes, dram, j))
  }

  ghost predicate Witnessed(outcomes: seq<Outcome>, pass: Oracle, rest: Oracle, dram: Dram, c: Config, sel: bv32) {
    && (forall k :: 0 <= k < |outcomes| ==> Witness(outcomes[k], pass, dram, c, sel))
    && (forall x: int, j: nat :: x !in OffsetsOf(outcomes) ==> pass(x, j) == rest(x, j))
  }

  /** The oracle once the error counts at offset `i` are known. */
  function Learn(pass: Oracle, i: int, errcnt: seq<int>): Oracle
    requires |errcnt| == 4
  {
    (x: int, j: nat) => if x == i && j < 4 then errcnt[j] == 0 else pass(x, j)
  }

  lemma OffsetsMore(outcomes: seq<Outcome>, o: Outcome)
    ensures OffsetsOf(outcomes + [o]) == OffsetsOf(outcomes) + [o.offset]
  {
  }

  lemma WitnessedMore(outcomes: seq<Outcome>, pass: Oracle, rest: Oracle, dram: Dram, c: Config, sel: bv32,
                      o: Outcome, errcnt: seq<int>)
    requires Witnessed(outcomes, pass, rest, dram, c, sel) && o.offset !in OffsetsOf(outcomes)
    requires |errcnt| == 4 && Ran(o.passes, Chosen(sel), 15, c, o.rseed)
    requires forall j :: 0 <= j < 4 ==> (errcnt[j] == 0 <==> AllLaneClean(o.passes, dram, j))
    ensures Witnessed(outcomes + [o], Learn(pass, o.offset, errcnt), rest, dram, c, sel)
  {
    var all, pass' := outcomes + [o], Learn(pass, o.offset, errcnt);
    OffsetsMore(outcomes, o);
    forall k | 0 <= k < |all| ensures Witness(all[k], pass', dram, c, sel) {
      if k < |outcomes| {
        assert Witness(outcomes[k], pass, dram, c, sel);
        assert OffsetsOf(outcomes)[k] == outcomes[k].offset;
      }
    }
  }

  // ----- one more offset

  /** min and max after the test at offset `i`. */
  ghost predicate Noted(errcnt: seq<int>, i: int, lo0: seq<int>, hi0: seq<int>, lo: seq<int>, hi: seq<int>) {
    && |errcnt| == |lo0| == |hi0| == |lo| == |hi| == 4
    && forall j :: 0 <= j < 4 ==>
         && lo[j] == (if errcnt[j] == 0 then Min(lo0[j], i) else lo0[j])
         && hi[j] == (if errcnt[j] == 0 then Max(hi0[j], i) else hi0[j])
  }

  /** The loop that checks the results of a test. */
  method Note(errcnt: seq<int>, i: int, lo0: seq<int>, hi0: seq<int>) returns (lo: seq<int>, hi: seq<int>)
    requires |errcnt| == |lo0| == |hi0| == 4
    ensures Noted(errcnt, i, lo0, hi0, lo, hi)
  {
    lo, hi := lo0, hi0;
    for j := 0 to 4
      invariant |lo| == |hi| == 4
      invariant forall l :: 0 <= l < j ==> lo[l] == (if errcnt[l] == 0 then Min(lo0[l], i) else lo0[l])
      invariant forall l :: 0 <= l < j ==> hi[l] == (if errcnt[l] == 0 then Max(hi0[l], i) else hi0[l])
      invariant forall l :: j <= l < 4 ==> lo[l] == lo0[l] && hi[l] == hi0[l]
    {
      if errcnt[j] == 0 {
        lo := lo[j := Min(lo[j], i)];
        hi := hi[j := Max(hi[j], i)];
      }
    }
  }

  /** Where a sweep stands on side `k` after n0 offsets upwards and n1 downwards. */
  ghost predicate Swept(step: int, pass: Oracle, k: nat, n0: nat, n1: nat, lo: seq<int>, hi: seq<int>) {
    && Eyes(step, pass, n0, n1, lo, hi)
    && (if k == 0 then n1 == 0 else WalksTo(step, pass, 0, n0))
    && forall l :: 0 <= l < (if k == 0 then n0 else n1) ==> !AllFail(pass, Offset(step, k, l))
  }

  /** The offsets of a sweep are all different. */
  lemma OffsetsDiffer(step: int, k: nat, m: nat, k': nat, m': nat)
    requires k < 2 && k' < 2 && Offset(step, k, m) == Offset(step, k', m')
    ensures k == k' && m == m'
  {
  }

  lemma {:induction false} SideAgrees(step: int, pass: Oracle, pass': Oracle, j: nat, k: nat, n: nat)
    requires forall m :: 0 <= m < n ==> Passes(step, pass, j, k, m) == Passes(step, pass', j, k, m)
    ensures Side(step, pass, j, k, n) == Side(step, pass', j, k, n)
  {
    if n > 0 {
      SideAgrees(step, pass, pass', j, k, n - 1);
      SideMore(step, pass, j, k, n - 1);
      SideMore(step, pass', j, k, n - 1);
    } else {
      assert Side(step, pass, j, k, 0) == {} == Side(step, pass', j, k, 0);
    }
  }

  lemma LearnElsewhere(step: int, pass: Oracle, k: nat, n: nat, errcnt: seq<int>, k': nat, m: nat)
    requires k < 2 && k' < 2 && |errcnt| == 4 && (k' != k || m != n)
    ensures var pass' := Learn(pass, Offset(step, k, n), errcnt);
            && (forall j: nat :: Passes(step, pass', j, k', m) == Passes(step, pass, j, k', m))
            && AllFail(pass', Offset(step, k', m)) == AllFail(pass, Offset(step, k', m))
  {
    if Offset(step, k, n) == Offset(step, k', m) {
      OffsetsDiffer(step, k, n, k', m);
    }
  }

  lemma EyeKept(step: int, pass: Oracle, k: nat, n0: nat, n1: nat, errcnt: seq<int>, j: nat, lo: int, hi: int)
    requires k < 2 && |errcnt| == 4 && Eye(step, pass, j, n0, n1, lo, hi)
    ensures Eye(step, Learn(pass, Offset(step, k, if k == 0 then n0 else n1), errcnt), j, n0, n1, lo, hi)
  {
    var n := if k == 0 then n0 else n1;
    var pass' := Learn(pass, Offset(step, k, n), errcnt);
    forall m | 0 <= m < n0 ensures Passes(step, pass, j, 0, m) == Passes(step, pass', j, 0, m) {
      LearnElsewhere(step, pass, k, n, errcnt, 0, m);
    }
    forall m | 0 <= m < n1 ensures Passes(step, pass, j, 1, m) == Passes(step, pass', j, 1, m) {
      LearnElsewhere(step, pass, k, n, errcnt, 1, m);
    }
    SideAgrees(step, pass, pass', j, 0, n0);
    SideAgrees(step, pass, pass', j, 1, n1);
  }

  lemma EyesMore(step: int, pass: Oracle, k: nat, n0: nat, n1: nat, errcnt: seq<int>,
                 lo0: seq<int>, hi0: seq<int>, lo: seq<int>, hi: seq<int>)
    requires k < 2 && (if k == 0 then n0 else n1) < Count(step, k) && Eyes(step, pass, n0, n1, lo0, hi0)
    requires Noted(errcnt, Offset(step, k, if k == 0 then n0 else n1), lo0, hi0, lo, hi)
    ensures Eyes(step, Learn(pass, Offset(step, k, if k == 0 then n0 else n1), errcnt),
                 if k == 0 then n0 + 1 else n0, if k == 0 then n1 else n1 + 1, lo, hi)
  {
    var pass' := Learn(pass, Offset(step, k, if k == 0 then n0 else n1), errcnt);
    forall j | 0 <= j < 4
      ensures Eye(step, pass', j, if k == 0 then n0 + 1 else n0, if k == 0 then n1 else n1 + 1, lo[j], hi[j])
    {
      EyeKept(step, pass, k, n0, n1, errcnt, j, lo0[j], hi0[j]);
      EyeMore(step, pass', j, k, n0, n1, lo0[j], hi0[j]);
    }
  }

  /** Side `k` has been walked to its end. */
  ghost predicate SideDone(step: int, pass: Oracle, k: nat, n0: nat, n1: nat, lo: seq<int>, hi: seq<int>) {
    && Eyes(step, pass, n0, n1, lo, hi)
    && (if k == 0 then n1 == 0 else WalksTo(step, pass, 0, n0))
    && WalksTo(step, pass, k, if k == 0 then n0 else n1)
  }

  /** All four lanes have errors. */
  predicate AllBad(errcnt: seq<int>)
    requires |errcnt| == 4
  {
    errcnt[0] != 0 && errcnt[1] != 0 && errcnt[2] != 0 && errcnt[3] != 0
  }

  /** The test at the next offset upwards, and downwards: the sweep goes on, or the side is
      done. */
  lemma SweptUp(step: int, pass: Oracle, n: nat, errcnt: seq<int>,
                lo0: seq<int>, hi0: seq<int>, lo: seq<int>, hi: seq<int>, pass': Oracle)
    requires n < Count(step, 0) && Swept(step, pass, 0, n, 0, lo0, hi0)
    requires Noted(errcnt, Offset(step, 0, n), lo0, hi0, lo, hi) && pass' == Learn(pass, Offset(step, 0, n), errcnt)
    ensures !AllBad(errcnt) ==> Swept(step, pass', 0, n + 1, 0, lo, hi)
    ensures AllBad(errcnt) || n + 1 == Count(step, 0) ==> SideDone(step, pass', 0, n + 1, 0, lo, hi)
  {
    EyesMore(step, pass, 0, n, 0, errcnt, lo0, hi0, lo, hi);
    SideKept(step, pass, 0, n, errcnt);
  }

  lemma SweptDown(step: int, pass: Oracle, n0: nat, n: nat, errcnt: seq<int>,
                  lo0: seq<int>, hi0: seq<int>, lo: seq<int>, hi: seq<int>, pass': Oracle)
    requires n < Count(step, 1) && Swept(step, pass, 1, n0, n, lo0, hi0)
    requires Noted(errcnt, Offset(step, 1, n), lo0, hi0, lo, hi) && pass' == Learn(pass, Offset(step, 1, n), errcnt)
    ensures !AllBad(errcnt) ==> Swept(step, pass', 1, n0, n + 1, lo, hi)
    ensures AllBad(errcnt) || n + 1 == Count(step, 1) ==> SideDone(step, pass', 1, n0, n + 1, lo, hi)
  {
    EyesMore(step, pass, 1, n0, n, errcnt, lo0, hi0, lo, hi);
    SideKept(step, pass, 1, n, errcnt);
    UpKept(step, pass, n, errcnt, n0);
  }

  lemma SideKept(step: int, pass: Oracle, k: nat, n: nat, errcnt: seq<int>)
    requires k < 2 && |errcnt| == 4 && forall l :: 0 <= l < n ==> !AllFail(pass, Offset(step, k, l))
    ensures var i := Offset(step, k, n);
            var pass' := Learn(pass, i, errcnt);
            && (forall l :: 0 <= l < n ==> !AllFail(pass', Offset(step, k, l)))
            && AllFail(pass', i) == AllBad(errcnt)
  {
    forall l | 0 <= l < n ensures !AllFail(Learn(pass, Offset(step, k, n), errcnt), Offset(step, k, l)) {
      LearnElsewhere(step, pass, k, n, errcnt, k, l);
    }
  }

  lemma UpKept(step: int, pass: Oracle, n1: nat, errcnt: seq<int>, n0: nat)
    requires |errcnt| == 4 && WalksTo(step, pass, 0, n0)
    ensures WalksTo(step, Learn(pass, Offset(step, 1, n1), errcnt), 0, n0)
  {
    forall m | 0 <= m < n0
      ensures AllFail(Learn(pass, Offset(step, 1, n1), errcnt), Offset(step, 0, m)) == AllFail(pass, Offset(step, 0, m))
    {
      LearnElsewhere(step, pass, 1, n1, errcnt, 0, m);
    }
  }

  /** The next offset has not been tested yet. */
  lemma NotYetTested(step: int, k: nat, n0: nat, n1: nat)
    requires k < 2 && (k == 0 ==> n1 == 0)
    ensures Offset(step, k, if k == 0 then n0 else n1) !in Walked(step, 0, n0) + Walked(step, 1, n1)
  {
    var i, up, down := Offset(step, k, if k == 0 then n0 else n1), Walked(step, 0, n0), Walked(step, 1, n1);
    if m :| 0 <= m < |up| && up[m] == i {
      OffsetsDiffer(step, k, if k == 0 then n0 else n1, 0, m);
    }
    if m :| 0 <= m < |down| && down[m] == i {
      OffsetsDiffer(step, k, if k == 0 then n0 else n1, 1, m);
    }
  }

  // ----- the nested test

  /** A sweep: its step and what its nested tests are given. */
  datatype Sweep = Sweep(step: int, config: Config, sel: bv32)

  /** The nested tests so far and the oracle they have led to. */
  datatype Trace = Trace(outcomes: seq<Outcome>, pass: Oracle)

  ghost predicate Recorded(s: Sweep, tr: Trace, rest: Oracle, dram: Dram, n0: nat, n1: nat) {
    && Witnessed(tr.outcomes, tr.pass, rest, dram, s.config, s.sel)
    && OffsetsOf(tr.outcomes) == Walked(s.step, 0, n0) + Walked(s.step, 1, n1)
  }

  lemma RecordedMore(s: Sweep, tr: Trace, rest: Oracle, dram: Dram, k: nat, n0: nat, n1: nat,
                     o: Outcome, errcnt: seq<int>)
    requires k < 2 && (k == 0 ==> n1 == 0) && Recorded(s, tr, rest, dram, n0, n1)
    requires o.offset == Offset(s.step, k, if k == 0 then n0 else n1)
    requires |errcnt| == 4 && Ran(o.passes, Chosen(s.sel), 15, s.config, o.rseed)
    requires forall j :: 0 <= j < 4 ==> (errcnt[j] == 0 <==> AllLaneClean(o.passes, dram, j))
    ensures Recorded(s, Trace(tr.outcomes + [o], Learn(tr.pass, o.offset, errcnt)), rest, dram,
                     if k == 0 then n0 + 1 else n0, if k == 0 then n1 else n1 + 1)
  {
    NotYetTested(s.step, k, n0, n1);
    WitnessedMore(tr.outcomes, tr.pass, rest, dram, s.config, s.sel, o, errcnt);
    OffsetsMore(tr.outcomes, o);
    WalkedMore(s.step, k, n0, n1);
  }

  lemma WalkedMore(step: int, k: nat, n0: nat, n1: nat)
    requires k < 2 && (k == 0 ==> n1 == 0)
    ensures Walked(step, 0, n0) + Walked(step, 1, n1) + [Offset(step, k, if k == 0 then n0 else n1)] ==
            Walked(step, 0, if k == 0 then n0 + 1 else n0) + Walked(step, 1, if k == 0 then n1 else n1 + 1)
  {
  }

  /** Offset number `n` of side `k` is next, after `done` offsets upwards if k is 1; or, with
      `stop`, the side ended with it. */
  ghost predicate OnSide(s: Sweep, tr: Trace, rest: Oracle, dram: Dram, k: nat, done: nat, n: nat,
                         lo: seq<int>, hi: seq<int>, stop: bool)
  {
    match Size(s)
    case Fits => |lo| == |hi| == 4 && Exactly(s, tr, rest, dram, k, done, n, lo, hi, stop)
    case Huge => |lo| == |hi| == 4
  }

  datatype Extent = Fits | Huge

  function Size(s: Sweep): Extent {
    if Small(s) then Fits else Huge
  }

  /** The nested tests have fewer than 2^31 words, so that their counters cannot wrap. */
  predicate Small(s: Sweep) {
    TotalWords(Chosen(s.sel), 15, s.config) < 0x8000_0000
  }

  /** How many of the first `m` tests are chosen. */
  function HowMany(chosen: seq<bool>, m: nat): nat
    requires m <= |chosen|
  {
    if m == 0 then 0 else HowMany(chosen, m - 1) + if chosen[m - 1] then 1 else 0
  }

  lemma {:induction false} TotalBound(chosen: seq<bool>, m: nat, c: Config, w: nat)
    requires m <= |chosen| && WordsIn(c.size) <= w && 4 * GroupsIn(c.size) <= w
    ensures TotalWords(chosen, m, c) <= HowMany(chosen, m) * w
  {
    if m > 0 {
      TotalBound(chosen, m - 1, c, w);
      assert (HowMany(chosen, m - 1) + 1) * w == HowMany(chosen, m - 1) * w + w;
    }
  }

  lemma ChosenBit(sel: bv32, m: nat)
    requires m < 15
    ensures sel == 0x0180 && m !in {7, 8} ==> !Has(sel, m)
    ensures sel == 0x0E00 && m !in {9, 10, 11} ==> !Has(sel, m)
    ensures sel == 0x1E60 && m !in {5, 6, 9, 10, 11, 12} ==> !Has(sel, m)
  {
  }

  lemma {:induction false} HowManyWithin(chosen: seq<bool>, m: nat)
    requires m <= |chosen| == 15 && forall k :: 0 <= k < 15 && chosen[k] ==> k in {5, 6, 7, 8, 9, 10, 11, 12}
    ensures HowMany(chosen, m) <= Min(8, Max(0, m - 5))
  {
    if m > 0 {
      HowManyWithin(chosen, m - 1);
    }
  }

  /** That holds for every sweep over at most 1023 megabytes. */
  lemma SweepsAreSmall(c: Config, fast: bool, fastIsBc: bool, step: int)
    requires c.size <= 0x3ff0_0000
    ensures Small(Sweep(step, c, Selection(fast, fastIsBc)))
  {
    var sel := Selection(fast, fastIsBc);
    var chosen, w := Chosen(sel), 0x0ffc_0000;
    forall k | 0 <= k < 15 && chosen[k] ensures k in {5, 6, 7, 8, 9, 10, 11, 12} {
      ChosenBit(sel, k);
    }
    HowManyWithin(chosen, 15);
    TotalBound(chosen, 15, c, w);
    Monotone(HowMany(chosen, 15), 8, w);
  }

  ghost predicate Exactly(s: Sweep, tr: Trace, rest: Oracle, dram: Dram, k: nat, done: nat, n: nat,
                          lo: seq<int>, hi: seq<int>, stop: bool)
  {
    var n0, n1 := if k == 0 then n else done, if k == 0 then 0 else n;
    && n <= Count(s.step, k) && Recorded(s, tr, rest, dram, n0, n1)
    && (!stop ==> Swept(s.step, tr.pass, k, n0, n1, lo, hi))
    && (stop || n == Count(s.step, k) ==> SideDone(s.step, tr.pass, k, n0, n1, lo, hi))
  }

  lemma ExactlyMore(s: Sweep, tr: Trace, rest: Oracle, dram: Dram, k: nat, done: nat, n: nat,
                   lo0: seq<int>, hi0: seq<int>, o: Outcome, errcnt: seq<int>, lo: seq<int>, hi: seq<int>, tr': Trace)
    requires k < 2 && n < Count(s.step, k) && Exactly(s, tr, rest, dram, k, done, n, lo0, hi0, false)
    requires o.offset == Offset(s.step, k, n) && Noted(errcnt, o.offset, lo0, hi0, lo, hi)
    requires Ran(o.passes, Chosen(s.sel), 15, s.config, o.rseed)
    requires forall j :: 0 <= j < 4 ==> (errcnt[j] == 0 <==> AllLaneClean(o.passes, dram, j))
    requires tr' == Trace(tr.outcomes + [o], Learn(tr.pass, o.offset, errcnt))
    ensures Exactly(s, tr', rest, dram, k, done, n + 1, lo, hi, AllBad(errcnt))
  {
    if k == 0 {
      RecordedMore(s, tr, rest, dram, 0, n, 0, o, errcnt);
      SweptUp(s.step, tr.pass, n, errcnt, lo0, hi0, lo, hi, tr'.pass);
    } else {
      RecordedMore(s, tr, rest, dram, 1, done, n, o, errcnt);
      SweptDown(s.step, tr.pass, done, n, errcnt, lo0, hi0, lo, hi, tr'.pass);
    }
  }

  /** The memory test at offset number `n` of side `k`, and the check of its results. */
  method NestedTest(t: Tester, s: Sweep, k: nat, i: int, lo0: seq<int>, hi0: seq<int>,
                    ghost tr: Trace, ghost rest: Oracle, ghost done: nat, ghost n: nat)
    returns (lo: seq<int>, hi: seq<int>, stop: bool, ghost tr': Trace)
    requires t.errBuf.Length == 256 && k < 2 && n < Count(s.step, k) && i == Offset(s.step, k, n)
    requires OnSide(s, tr, rest, t.dram, k, done, n, lo0, hi0, false)
    modifies t, t.errBuf
    ensures OnSide(s, tr', rest, t.dram, k, done, n + 1, lo, hi, stop)
    ensures OffsetsOf(tr'.outcomes) == OffsetsOf(tr.outcomes) + [i]
  {
    ghost var r := t.rseed;
    MemtestAll(t, s.config, s.sel);
    lo, hi := Note(t.errcnt, i, lo0, hi0);
    stop := t.errcnt[0] > 0 && t.errcnt[1] > 0 && t.errcnt[2] > 0 && t.errcnt[3] > 0;
    ghost var o := Outcome(i, r, t.passes);
    tr' := Trace(tr.outcomes + [o], Learn(tr.pass, i, t.errcnt));
    OffsetsMore(tr.outcomes, o);
    if Small(s) {
      ExactlyMore(s, tr, rest, t.dram, k, done, n, lo0, hi0, o, t.errcnt, lo, hi, tr');
    }
  }

  // ----- the results of a whole sweep

  /** The reported ends of lane `j` are the true ends among all offsets of the grid. */
  ghost predicate Exact(step: int, pass: Oracle, j: nat, result: seq<int>)
    requires |result| == 8 && j < 4
  {
    Eye(step, pass, j, Count(step, 0), Count(step, 1), result[2 * j], result[2 * j + 1])
  }

  /** The offset was tested and the whole range was clean in lane `j` there. */
  ghost predicate TestedClean(outcomes: seq<Outcome>, dram: Dram, i: int, j: nat)
    requires j < 4
  {
    exists k :: 0 <= k < |outcomes| && outcomes[k].offset == i && AllLaneClean(outcomes[k].passes, dram, j)
  }

  /** What a sweep reports: the smallest and largest offsets tested clean, or the sentinels if
      there is none; and these are the true ends exactly for a lane without an island. */
  ghost predicate Measured(step: int, outcomes: seq<Outcome>, pass: Oracle, dram: Dram, result: seq<int>) {
    && |result| == 8
    && forall j :: 0 <= j < 4 ==> LaneMeasured(step, outcomes, pass, dram, result, j)
  }

  ghost predicate LaneMeasured(step: int, outcomes: seq<Outcome>, pass: Oracle, dram: Dram, result: seq<int>, j: nat)
    requires |result| == 8 && j < 4
  {
    var lo, hi := result[2 * j], result[2 * j + 1];
    && ((lo == 9999 && hi == -9999) ||
        (0 <= lo <= hi <= 128 && TestedClean(outcomes, dram, lo, j) && TestedClean(outcomes, dram, hi, j)))
    && (forall i :: TestedClean(outcomes, dram, i, j) ==> lo <= i <= hi)
    && (Exact(step, pass, j, result) <==> NoIsland(step, pass, j))
    && (CentralInterval(step, pass, j) ==> Exact(step, pass, j, result))
  }

  lemma {:induction false} SideIsWalked(step: int, pass: Oracle, j: nat, k: nat, n: nat, i: int)
    ensures i in Side(step, pass, j, k, n) <==> i in Walked(step, k, n) && pass(i, j)
  {
    var w := Walked(step, k, n);
    if i in w && pass(i, j) {
      var m :| 0 <= m < |w| && w[m] == i;
      assert Passes(step, pass, j, k, m);
    }
    if i in Side(step, pass, j, k, n) {
      var m :| 0 <= m < n && Passes(step, pass, j, k, m) && Offset(step, k, m) == i;
      assert w[m] == i;
    }
  }

  lemma PassingIsClean(step: int, outcomes: seq<Outcome>, pass: Oracle, rest: Oracle, dram: Dram, c: Config, sel: bv32,
                       n0: nat, n1: nat, j: nat, i: int)
    requires j < 4 && Witnessed(outcomes, pass, rest, dram, c, sel)
    requires OffsetsOf(outcomes) == Walked(step, 0, n0) + Walked(step, 1, n1)
    ensures i in Passing(step, pass, j, n0, n1) <==> TestedClean(outcomes, dram, i, j)
  {
    SideIsWalked(step, pass, j, 0, n0, i);
    SideIsWalked(step, pass, j, 1, n1, i);
    var offsets := OffsetsOf(outcomes);
    if i in offsets && pass(i, j) {
      var k :| 0 <= k < |offsets| && offsets[k] == i;
      assert Witness(outcomes[k], pass, dram, c, sel);
    }
    if TestedClean(outcomes, dram, i, j) {
      var k :| 0 <= k < |outcomes| && outcomes[k].offset == i && AllLaneClean(outcomes[k].passes, dram, j);
      assert Witness(outcomes[k], pass, dram, c, sel);
      assert offsets[k] == i;
    }
  }

  lemma SweepMeasures(step: int, outcomes: seq<Outcome>, pass: Oracle, rest: Oracle, dram: Dram, c: Config, sel: bv32,
                      n0: nat, n1: nat, result: seq<int>)
    requires Witnessed(outcomes, pass, rest, dram, c, sel)
    requires OffsetsOf(outcomes) == Walked(step, 0, n0) + Walked(step, 1, n1)
    requires WalksTo(step, pass, 0, n0) && WalksTo(step, pass, 1, n1) && Reported(step, pass, n0, n1, result)
    ensures Measured(step, outcomes, pass, dram, result)
  {
    forall j | 0 <= j < 4 ensures LaneMeasured(step, outcomes, pass, dram, result, j) {
      var lo, hi := result[2 * j], result[2 * j + 1];
      forall i ensures i in Passing(step, pass, j, n0, n1) <==> TestedClean(outcomes, dram, i, j) {
        PassingIsClean(step, outcomes, pass, rest, dram, c, sel, n0, n1, j, i);
      }
      Sentinels(step, pass, j, n0, n1, lo, hi);
      SweepIsExact(step, pass, j, n0, n1, lo, hi);
      if CentralInterval(step, pass, j) {
        IntervalHasNoIsland(step, pass, j);
      }
    }
  }

  /** The sweep is over: its tests are those of the two sides walked, in order, and what they
      showed is in the oracle. */
  ghost predicate Conducted(s: Sweep, tr: Trace, rest: Oracle, dram: Dram) {
    exists n0: nat, n1: nat ::
      WalksTo(s.step, tr.pass, 0, n0) && WalksTo(s.step, tr.pass, 1, n1) && Recorded(s, tr, rest, dram, n0, n1)
  }

  lemma FirstSide(s: Sweep, rest: Oracle, dram: Dram)
    ensures OnSide(s, Trace([], rest), rest, dram, 0, 0, 0, NoLo(), NoHi(), false)
  {
    NoEyes(s.step, rest);
  }

  lemma SecondSide(s: Sweep, tr: Trace, rest: Oracle, dram: Dram, n0: nat, lo: seq<int>, hi: seq<int>)
    requires OnSide(s, tr, rest, dram, 0, 0, n0, lo, hi, true)
    ensures OnSide(s, tr, rest, dram, 1, n0, 0, lo, hi, false)
  {
  }

  lemma Finish(s: Sweep, tr: Trace, rest: Oracle, dram: Dram, n0: nat, n1: nat, lo: seq<int>, hi: seq<int>)
    requires OnSide(s, tr, rest, dram, 1, n0, n1, lo, hi, true)
    ensures |lo| == |hi| == 4
    ensures Small(s) ==>
              Conducted(s, tr, rest, dram) && Measured(s.step, tr.outcomes, tr.pass, dram, Interleave(lo, hi))
  {
    if Small(s) {
      InterleaveReports(s.step, tr.pass, n0, n1, lo, hi);
      SweepMeasures(s.step, tr.outcomes, tr.pass, rest, dram, s.config, s.sel, n0, n1, Interleave(lo, hi));
    }
  }
}
