/** memtest_all: the selected tests in order, and what their combined verdict means. */
module MemTestAll {
  import opened Arithmetic
  import opened BitSet
  import opened ByteOrder
  import opened MemTest
  import opened Patterns
  import opened WordNumber

  /** rseed += 0x017c1e23, in 32 bits. */
  function NextSeed(rseed: int): int {
    (rseed + 0x017c_1e23) % 0x1_0000_0000
  }

  /** What test number `mode` expects; `rseed` is the seed after the test has changed it. */
  function PlanFor(mode: nat, c: Config, rseed: int): seq<Probe> {
    if mode == 0 then GenericPlan(c, 0)
    else if mode <= 8 then SimplePlan(c, SimpleArgs(mode, c.bus32))
    else if mode == 9 then PatPlan(c, Table(c.bus32, false))
    else if mode == 10 then PatPlan(c, Table(c.bus32, true))
    else LfsrPlan(c, Seed(c.loop, mode, rseed))
  }

  /** The tests that the selection word turns on. */
  function Chosen(sel: bv32): (chosen: seq<bool>)
    ensures |chosen| == 15
  {
    seq(15, m requires 0 <= m < 15 => Has(sel, m))
  }

  /** With loop -1 memtest_simple only writes; every other test also reads back. */
  predicate ReadsBack(mode: nat, c: Config) {
    !(1 <= mode <= 8 && c.loop == -1)
  }

  /** The random seed before test `m`: each selected pseudo-random test moves it on. */
  function SeedBefore(chosen: seq<bool>, m: nat, rseed: int): int
    requires m <= |chosen|
  {
    if m == 0 then rseed
    else if m > 11 && chosen[m - 1] then NextSeed(SeedBefore(chosen, m - 1, rseed))
    else SeedBefore(chosen, m - 1, rseed)
  }

  /** Test by test, on a 32-bit bus: memtest_all uses the words of memtest in that mode, where the
      size lets memtest_simple reach as far; the pseudo-random ones for a seed of 0. */
  lemma PlanIsGeneric(mode: nat, c: Config)
    requires mode < 15 && c.bus32 && c.qmask == 0xFFFF_FFFF
    requires c.size <= 0 || c.size % 16 == 0 || c.size % 16 >= 13
    ensures SameWords(PlanFor(mode, c, 0), GenericPlan(c, mode))
  {
    if 1 <= mode <= 8 {
      SimpleIsGeneric(c, mode);
    } else if 9 <= mode <= 10 {
      TableIsGeneric(c, mode);
    } else if mode >= 11 {
      LfsrIsGeneric(c, mode);
    }
  }

  /** The pseudo-random tests chosen below `m`. */
  function RandomTests(chosen: seq<bool>, m: nat): nat
    requires m <= |chosen|
  {
    if m == 0 then 0 else RandomTests(chosen, m - 1) + if m > 11 && chosen[m - 1] then 1 else 0
  }

  lemma {:induction false} SeedsMoveOn(chosen: seq<bool>, m: nat, rseed: int)
    requires m <= |chosen|
    ensures SeedBefore(chosen, m, rseed) % 0x1_0000_0000 ==
            (rseed + 0x017c_1e23 * RandomTests(chosen, m)) % 0x1_0000_0000
  {
    if m > 0 {
      SeedsMoveOn(chosen, m - 1, rseed);
      if m > 11 && chosen[m - 1] {
        SeedNext(SeedBefore(chosen, m - 1, rseed), rseed + 0x017c_1e23 * RandomTests(chosen, m - 1));
      }
    }
  }

  lemma SeedNext(s: int, t: int)
    requires s % 0x1_0000_0000 == t % 0x1_0000_0000
    ensures NextSeed(s) % 0x1_0000_0000 == (t + 0x017c_1e23) % 0x1_0000_0000
  {
    SameRemainder(0x017c_1e23, s, t);
  }

  /** Each test m from 11 on starts its register from 0x12345678 + loop + 19m plus rseed, moved
      on by 0x017c1e23 for every pseudo-random test up to and including it. */
  lemma SeedOfTest(chosen: seq<bool>, m: nat, c: Config, rseed: int)
    requires 11 <= m < |chosen| && chosen[m]
    ensures Number(Seed(c.loop, m, SeedBefore(chosen, m + 1, rseed))) ==
            (0x1234_5678 + c.loop + 19 * m + rseed + 0x017c_1e23 * RandomTests(chosen, m + 1)) % 0x1_0000_0000
  {
    SeedsMoveOn(chosen, m + 1, rseed);
    NumberOfWord(0x1234_5678 + c.loop + 19 * m + SeedBefore(chosen, m + 1, rseed));
    SameRemainder(0x1234_5678 + c.loop + 19 * m, SeedBefore(chosen, m + 1, rseed),
                  rseed + 0x017c_1e23 * RandomTests(chosen, m + 1));
  }

  lemma SameRemainder(a: int, b: int, c: int)
    requires b % 0x1_0000_0000 == c % 0x1_0000_0000
    ensures (a + b) % 0x1_0000_0000 == (a + c) % 0x1_0000_0000
  {
  }

  // ----- what a write pass leaves in memory

  ghost predicate Spaced(plan: seq<Probe>, start: int) {
    forall i :: 0 <= i < |plan| ==> plan[i].addr == start + 4 * i
  }

  /** Every expected value is in memory when the read pass begins. */
  ghost predicate Loaded(p: Pass) {
    forall i :: 0 <= i < |p.plan| ==> p.plan[i].addr in p.image && p.image[p.plan[i].addr] == p.plan[i].ref
  }

  lemma {:induction false} LoadedByWrites(image: Image, plan: seq<Probe>, start: int)
    requires Spaced(plan, start)
    ensures var after := WriteAll(image, plan);
            forall i :: 0 <= i < |plan| ==> plan[i].addr in after && after[plan[i].addr] == plan[i].ref
  {
    if plan != [] {
      LoadedByWrites(image, plan[..|plan| - 1], start);
    }
  }

  lemma PlanSpaced(mode: nat, c: Config, rseed: int)
    ensures Spaced(PlanFor(mode, c, rseed), c.start)
  {
  }

  /** A memory that returns what was last written. */
  ghost predicate Faithful(dram: Dram) {
    forall t, image, a :: a in image ==> dram(t, image, a) == image[a]
  }

  // ----- the run

  /** The passes are those of the chosen tests below `m` that read back, one each and in
      order, each on the plan of its test and begun with its values in memory. */
  ghost predicate Ran(passes: seq<Pass>, chosen: seq<bool>, m: nat, c: Config, rseed: int)
    requires m <= |chosen|
  {
    if m == 0 then passes == []
    else if !(chosen[m - 1] && ReadsBack(m - 1, c)) then Ran(passes, chosen, m - 1, c, rseed)
    else
      && passes != []
      && Ran(passes[..|passes| - 1], chosen, m - 1, c, rseed)
      && PassOf(passes[|passes| - 1], m - 1, c, SeedBefore(chosen, m, rseed))
  }

  ghost predicate PassOf(p: Pass, mode: nat, c: Config, rseed: int) {
    p.mode == mode && p.plan == PlanFor(mode, c, rseed) && Loaded(p)
  }

  lemma HasModeLast(passes: seq<Pass>, b: nat)
    requires passes != []
    ensures HasMode(passes, b) <==> HasMode(passes[..|passes| - 1], b) || passes[|passes| - 1].mode == b
  {
    var before := passes[..|passes| - 1];
    if k :| 0 <= k < |before| && before[k].mode == b {
      assert passes[k].mode == b;
    }
    if k :| 0 <= k < |passes| && passes[k].mode == b {
      assert k < |before| ==> before[k].mode == b;
    }
  }

  lemma {:induction false} RanModes(passes: seq<Pass>, chosen: seq<bool>, m: nat, c: Config, rseed: int, b: nat)
    requires m <= |chosen| && Ran(passes, chosen, m, c, rseed)
    ensures HasMode(passes, b) <==> b < m && chosen[b] && ReadsBack(b, c)
  {
    if m > 0 {
      if chosen[m - 1] && ReadsBack(m - 1, c) {
        RanModes(passes[..|passes| - 1], chosen, m - 1, c, rseed, b);
        HasModeLast(passes, b);
      } else {
        RanModes(passes, chosen, m - 1, c, rseed, b);
      }
    }
  }

  /** With loop -1 tests 1 to 8 only write; otherwise every selected test reads back. */
  lemma WriteOnlyLoop(passes: seq<Pass>, sel: bv32, c: Config, rseed: int, m: nat)
    requires Ran(passes, Chosen(sel), 15, c, rseed) && m < 15
    ensures c.loop == -1 && 1 <= m <= 8 ==> !HasMode(passes, m)
    ensures c.loop != -1 || m == 0 || m > 8 ==> (HasMode(passes, m) <==> Has(sel, m))
  {
    RanModes(passes, Chosen(sel), 15, c, rseed, m);
    assert Has(sel, m) == Chosen(sel)[m];
  }

  lemma {:induction false} RanLoaded(passes: seq<Pass>, chosen: seq<bool>, m: nat, c: Config, rseed: int)
    requires m <= |chosen| && Ran(passes, chosen, m, c, rseed)
    ensures forall k :: 0 <= k < |passes| ==> Loaded(passes[k])
  {
    if m > 0 {
      if chosen[m - 1] && ReadsBack(m - 1, c) {
        RanLoaded(passes[..|passes| - 1], chosen, m - 1, c, rseed);
      } else {
        RanLoaded(passes, chosen, m - 1, c, rseed);
      }
    }
  }

  /** The values test `m` is about to write, with the tables that UpdatePatterns builds; the
      pseudo-random tests first change the seed. */
  method MakePlan(t: Tester, c: Config, m: nat) returns (plan: seq<Probe>)
    requires m < 15
    modifies t`rseed
    ensures t.rseed == if m >= 11 then NextSeed(old(t.rseed)) else old(t.rseed)
    ensures plan == PlanFor(m, c, t.rseed)
  {
    if m == 0 {
      plan := GenericPlan(c, 0);
    } else if m <= 8 {
      plan := SimplePlan(c, SimpleArgs(m, c.bus32));
    } else if m == 9 {
      plan := PatPlan(c, Table(c.bus32, false));
    } else if m == 10 {
      plan := PatPlan(c, Table(c.bus32, true));
    } else {
      t.rseed := NextSeed(t.rseed);
      plan := Generate(c, Seed(c.loop, m, t.rseed));
    }
  }

  /** One line of memtest_all: test number `m`, if selected. */
  method RunSelected(t: Tester, c: Config, chosen: seq<bool>, m: nat, ghost rseed: int)
    requires m < |chosen| == 15 && t.InTest(Between) && t.Flagged() && t.Logged()
    requires Ran(t.passes, chosen, m, c, rseed) && t.rseed == SeedBefore(chosen, m, rseed)
    modifies t, t.errBuf
    ensures t.InTest(Between) && t.Flagged() && t.Logged() && t.began == old(t.began)
    ensures Ran(t.passes, chosen, m + 1, c, rseed) && t.rseed == SeedBefore(chosen, m + 1, rseed)
  {
    if chosen[m] {
      var plan := MakePlan(t, c, m);
      if ReadsBack(m, c) {
        RunReading(t, c, chosen, m, plan, rseed);
      } else {
        t.WritePass(plan);
      }
    }
  }

  method RunReading(t: Tester, c: Config, ghost chosen: seq<bool>, m: nat, plan: seq<Probe>, ghost rseed: int)
    requires m < |chosen| == 15 && chosen[m] && ReadsBack(m, c) && t.InTest(Between) && t.Flagged() && t.Logged()
    requires Ran(t.passes, chosen, m, c, rseed) && plan == PlanFor(m, c, SeedBefore(chosen, m + 1, rseed))
    modifies t, t.errBuf
    ensures t.InTest(Between) && t.Flagged() && t.Logged() && t.began == old(t.began) && t.rseed == old(t.rseed)
    ensures Ran(t.passes, chosen, m + 1, c, rseed)
  {
    ghost var p := Pass(m, t.time, WriteAll(t.image, plan), plan);
    RanNext(t.passes, p, t.image, chosen, c, rseed);
    RunPlan(t, m, plan, t.passes + [p]);
  }

  method RunPlan(t: Tester, m: nat, plan: seq<Probe>, ghost passes: seq<Pass>)
    requires m < 15 && t.InTest(Between) && t.Flagged() && t.Logged() && !HasMode(t.passes, m)
    requires passes == t.passes + [Pass(m, t.time, WriteAll(t.image, plan), plan)]
    modifies t, t.errBuf
    ensures t.InTest(Between) && t.Flagged() && t.Logged() && t.began == old(t.began) && t.rseed == old(t.rseed)
    ensures t.passes == passes
  {
    t.Test(m, plan, 1 <= m <= 8);
  }

  lemma RanNext(passes: seq<Pass>, p: Pass, image: Image, chosen: seq<bool>, c: Config, rseed: int)
    requires p.mode < |chosen| && chosen[p.mode] && ReadsBack(p.mode, c) && Ran(passes, chosen, p.mode, c, rseed)
    requires p.plan == PlanFor(p.mode, c, SeedBefore(chosen, p.mode + 1, rseed)) && p.image == WriteAll(image, p.plan)
    ensures !HasMode(passes, p.mode)
    ensures Ran(passes + [p], chosen, p.mode + 1, c, rseed)
  {
    RanModes(passes, chosen, p.mode, c, rseed, p.mode);
    PlanSpaced(p.mode, c, SeedBefore(chosen, p.mode + 1, rseed));
    LoadedByWrites(image, p.plan, c.start);
    assert (passes + [p])[..|passes|] == passes;
  }

  // ----- how many errors there can be

  /** The words of test `mode`. */
  function PlanSize(mode: nat, c: Config): nat {
    if 1 <= mode <= 8 then 4 * GroupsIn(c.size) else WordsIn(c.size)
  }

  /** The words of all chosen tests below `m` that read back. */
  function TotalWords(chosen: seq<bool>, m: nat, c: Config): nat
    requires m <= |chosen|
  {
    if m == 0 then 0
    else TotalWords(chosen, m - 1, c) + if chosen[m - 1] && ReadsBack(m - 1, c) then PlanSize(m - 1, c) else 0
  }

  lemma {:induction false} RanWords(passes: seq<Pass>, chosen: seq<bool>, m: nat, c: Config, rseed: int)
    requires m <= |chosen| && Ran(passes, chosen, m, c, rseed)
    ensures WordsOf(passes) == TotalWords(chosen, m, c)
  {
    if m > 0 {
      if chosen[m - 1] && ReadsBack(m - 1, c) {
        RanWords(passes[..|passes| - 1], chosen, m - 1, c, rseed);
      } else {
        RanWords(passes, chosen, m - 1, c, rseed);
      }
    }
  }

  /** A run finds at most as many errors as its tests have words. */
  lemma LogBound(dram: Dram, passes: seq<Pass>, stops: seq<nat>, sel: bv32, c: Config, rseed: int)
    requires Ran(passes, Chosen(sel), 15, c, rseed) && Stops(dram, passes, stops)
    ensures |AllFound(dram, passes, stops)| <= TotalWords(Chosen(sel), 15, c)
  {
    RanWords(passes, Chosen(sel), 15, c, rseed);
    AllFoundBound(dram, passes, stops);
  }

  /** The local counts of a test never wrap: its words fit an int. */
  lemma LocalCountsFit(p: Pass, dram: Dram, n: nat, merr: nat, lerr: seq<int>, mode: nat, c: Config, rseed: int)
    requires n <= |p.plan| && p.plan == PlanFor(mode, c, rseed) && Tally(merr, lerr, p.Found(dram, n)) && Int32(c.size)
    ensures Int32(merr) && forall j :: 0 <= j < 4 ==> 0 <= lerr[j] <= merr
  {
    FoundBound(p, dram, n);
    FoundGenuine(p, dram, n);
    CountBounds(p.Found(dram, n));
  }

  lemma {:induction false} FoundGenuine(p: Pass, dram: Dram, n: nat)
    requires n <= |p.plan|
    ensures Genuine(p.Found(dram, n))
  {
    if n > 0 {
      FoundGenuine(p, dram, n - 1);
    }
  }

  // ----- what the counters say

  /** The counters are the counts of the log, and bound each other. */
  ghost predicate Plain(errcnt: seq<int>, werr: int, log: seq<Mismatch>) {
    && |errcnt| == 4 && werr == |log|
    && (forall j :: 0 <= j < 4 ==> errcnt[j] == LaneCount(log, j) && errcnt[j] <= werr)
    && werr <= errcnt[0] + errcnt[1] + errcnt[2] + errcnt[3]
  }

  lemma CountersPlain(errcnt: seq<int>, werr: int, log: seq<Mismatch>)
    requires |errcnt| == 4 && Counted(errcnt, NO_ERRORS, log) && werr == Wrap32(|log|) && Genuine(log)
    requires |log| < 0x8000_0000
    ensures Plain(errcnt, werr, log)
  {
    CountBounds(log);
    forall j | 0 <= j < 4 ensures errcnt[j] == LaneCount(log, j) && errcnt[j] <= werr {
      CountedAt(errcnt, log, j);
    }
  }

  lemma CountedAt(errcnt: seq<int>, log: seq<Mismatch>, j: nat)
    requires |errcnt| == 4 && Counted(errcnt, NO_ERRORS, log) && j < 4
    ensures errcnt[j] == Wrap32(LaneCount(log, j))
  {
    assert LaneCount(log, j) - NO_ERRORS[j] == LaneCount(log, j);
  }

  /** The counters are zero exactly when the whole ranges are clean. */
  ghost predicate Judging(dram: Dram, passes: seq<Pass>, errcnt: seq<int>, werr: int) {
    && |errcnt| == 4 && (werr == 0 <==> AllClean(passes, dram))
    && forall j :: 0 <= j < 4 ==> (errcnt[j] == 0 <==> AllLaneClean(passes, dram, j))
  }

  lemma CountersJudge(dram: Dram, passes: seq<Pass>, stops: seq<nat>, errcnt: seq<int>, werr: int, log: seq<Mismatch>)
    requires Stops(dram, passes, stops) && log == AllFound(dram, passes, stops) && Genuine(log)
    requires |errcnt| == 4 && Counted(errcnt, NO_ERRORS, log) && werr == Wrap32(|log|) && |log| < 0x1_0000_0000
    ensures Judging(dram, passes, errcnt, werr)
  {
    LogVerdicts(dram, passes, stops);
    WrapZero(|log|);
    CountersZeroAt(errcnt, log);
  }

  lemma CountersZeroAt(errcnt: seq<int>, log: seq<Mismatch>)
    requires |errcnt| == 4 && Counted(errcnt, NO_ERRORS, log) && Genuine(log) && |log| < 0x1_0000_0000
    ensures forall j :: 0 <= j < 4 ==> (errcnt[j] == 0 <==> LaneCount(log, j) == 0)
  {
    CountBounds(log);
    forall j | 0 <= j < 4 ensures errcnt[j] == 0 <==> LaneCount(log, j) == 0 {
      CountedAt(errcnt, log, j);
      WrapZero(LaneCount(log, j));
    }
  }

  /** memtest_all on an arbitrary memory (the loop stands for its 15 consecutive tests).
      Every selected test runs on its own plan, and bit m of epp is right for every size.
      Below 2^31 words in all, counters, buffer and mailbox are those of the log of
      mismatches, and no store but the initial one leaves the buffer; below 2^32 words the
      counters are zero exactly for clean ranges. WorstRun shows that neither bound can be
      raised. */
  method MemtestAll(t: Tester, c: Config, sel: bv32)
    requires t.errBuf.Length == 256
    modifies t, t.errBuf
    ensures t.InTest(Between) && t.Flagged() && t.Logged() && t.began == old(t.time)
    ensures Ran(t.passes, Chosen(sel), 15, c, old(t.rseed)) && |t.log| <= TotalWords(Chosen(sel), 15, c)
    ensures TotalWords(Chosen(sel), 15, c) < 0x8000_0000 ==>
              && Plain(t.errcnt, t.werr, t.log) && t.strays == [-3]
              && Buffered(t.errBuf[..], t.log) && t.errInfo == FirstError(t.log)
    ensures TotalWords(Chosen(sel), 15, c) < 0x1_0000_0000 ==> Judging(t.dram, t.passes, t.errcnt, t.werr)
    ensures forall m :: 0 <= m < 15 ==> EppBit(t.dram, t.passes, sel, c, t.epp, m)
    ensures Faithful(t.dram) ==> t.werr == 0 && t.epp == 0 && t.errcnt == NO_ERRORS
  {
    ghost var r := t.rseed;
    RunTests(t, c, sel);
    LogBound(t.dram, t.passes, t.stops, sel, c, r);
    forall m | 0 <= m < 15 ensures EppBit(t.dram, t.passes, sel, c, t.epp, m) {
      EppMeaning(t.dram, t.passes, sel, c, r, t.epp, m);
    }
    if TotalWords(Chosen(sel), 15, c) < 0x8000_0000 {
      CountersPlain(t.errcnt, t.werr, t.log);
    }
    if TotalWords(Chosen(sel), 15, c) < 0x1_0000_0000 {
      CountersJudge(t.dram, t.passes, t.stops, t.errcnt, t.werr, t.log);
    }
    if Faithful(t.dram) {
      RanLoaded(t.passes, Chosen(sel), 15, c, r);
      FaithfulPasses(t.dram, t.passes, t.stops, t.epp);
      CountersZero(t.errcnt, t.log);
    }
  }

  method RunTests(t: Tester, c: Config, sel: bv32)
    requires t.errBuf.Length == 256
    modifies t, t.errBuf
    ensures t.InTest(Between) && t.Flagged() && t.Logged() && t.began == old(t.time)
    ensures Ran(t.passes, Chosen(sel), 15, c, old(t.rseed))
  {
    ghost var r := t.rseed;
    var chosen := Chosen(sel);
    t.Reset();
    for m := 0 to 15
      invariant t.InTest(Between) && t.Flagged() && t.Logged() && t.began == old(t.time)
      invariant Ran(t.passes, chosen, m, c, r) && t.rseed == SeedBefore(chosen, m, r)
    {
      RunSelected(t, c, chosen, m, r);
    }
  }

  lemma CountersZero(errcnt: seq<int>, log: seq<Mismatch>)
    requires |errcnt| == 4 && Counted(errcnt, NO_ERRORS, log) && log == []
    ensures errcnt == NO_ERRORS
  {
    forall j | 0 <= j < 4 ensures errcnt[j] == 0 {
      CountedAt(errcnt, log, j);
    }
  }

  lemma FaithfulPasses(dram: Dram, passes: seq<Pass>, stops: seq<nat>, epp: bv32)
    requires Faithful(dram) && forall k :: 0 <= k < |passes| ==> Loaded(passes[k])
    requires Stops(dram, passes, stops) && Encodes(epp, FailedModes(passes, dram))
    ensures AllFound(dram, passes, stops) == [] && epp == 0
  {
    forall k | 0 <= k < |passes| ensures passes[k].Clean(dram) {
      FaithfulClean(dram, passes[k]);
    }
    LogVerdicts(dram, passes, stops);
    assert FailedModes(passes, dram) == {};
    EncodesEmpty(epp);
  }

  lemma FaithfulClean(dram: Dram, p: Pass)
    requires Faithful(dram) && Loaded(p)
    ensures p.Clean(dram) && forall j :: 0 <= j < 4 ==> p.LaneClean(dram, j)
  {
  }

  /** Write and read passes replay one sequence: on a faithful memory no word of any test
      mismatches, for every start, size, mode, loop and seed, whatever was in memory. */
  lemma FaithfulTest(dram: Dram, mode: nat, c: Config, rseed: int, t0: nat, image: Image)
    requires Faithful(dram)
    ensures var plan := PlanFor(mode, c, rseed);
            var p := Pass(mode, t0, WriteAll(image, plan), plan);
            p.Clean(dram) && p.Found(dram, |plan|) == [] && forall j :: 0 <= j < 4 ==> p.LaneClean(dram, j)
  {
    var plan := PlanFor(mode, c, rseed);
    var p := Pass(mode, t0, WriteAll(image, plan), plan);
    PlanSpaced(mode, c, rseed);
    LoadedByWrites(image, plan, c.start);
    FaithfulClean(dram, p);
    NothingFound(p, dram, |plan|);
  }

  /** Bit m of epp is set exactly when test m ran and some word of its whole range
      mismatches; there is one pass per selected test that reads back. */
  ghost predicate EppBit(dram: Dram, passes: seq<Pass>, sel: bv32, c: Config, epp: bv32, m: nat)
    requires m < 15
  {
    && (Has(epp, m) <==> exists k :: 0 <= k < |passes| && passes[k].mode == m && !passes[k].Clean(dram))
    && (Has(sel, m) && ReadsBack(m, c) <==> HasMode(passes, m))
  }

  lemma EppMeaning(dram: Dram, passes: seq<Pass>, sel: bv32, c: Config, rseed: int, epp: bv32, m: nat)
    requires Ran(passes, Chosen(sel), 15, c, rseed) && Encodes(epp, FailedModes(passes, dram)) && m < 15
    ensures EppBit(dram, passes, sel, c, epp, m)
  {
    RanModes(passes, Chosen(sel), 15, c, rseed, m);
    assert Has(sel, m) == Chosen(sel)[m];
    assert Has(epp, m) <==> m in FailedModes(passes, dram);
  }

  // ----- the memory that shows the bounds to be exact

  /** The word with its lowest bit changed: an error in lane 0 only. */
  function Spoil(w: Word): Word {
    if w % 2 == 0 then w + 1 else w - 1
  }

  lemma SpoilLanes(w: Word)
    ensures Spoil(w) != w && ByteAt(Spoil(w), 0) != ByteAt(w, 0)
    ensures forall j :: 1 <= j < 4 ==> ByteAt(Spoil(w), j) == ByteAt(w, j)
  {
    assert Spoil(w) / 256 == w / 256;
  }

  /** A memory with one bad byte lane for its first `limit` reads. */
  function BadUntil(limit: nat): Dram {
    (t: nat, image: Image, a: int) => BadRead(limit, t, image, a)
  }

  function BadRead(limit: nat, t: nat, image: Image, a: int): Word {
    if a !in image then 0 else if t < limit then Spoil(image[a]) else image[a]
  }

  lemma BadWord(p: Pass, limit: nat, i: nat)
    requires Loaded(p) && i < |p.plan|
    ensures p.Bad(BadUntil(limit), i) == p.BadLane(BadUntil(limit), i, 0) == (p.t0 + i < limit)
    ensures forall j :: 1 <= j < 4 ==> !p.BadLane(BadUntil(limit), i, j)
  {
    SpoilLanes(p.plan[i].ref);
  }

  lemma {:induction false} BadFound(p: Pass, limit: nat, n: nat)
    requires Loaded(p) && n <= |p.plan|
    ensures |p.Found(BadUntil(limit), n)| == Min(p.t0 + n, limit) - Min(p.t0, limit)
  {
    if n > 0 {
      BadFound(p, limit, n - 1);
      BadWord(p, limit, n - 1);
      FoundNext(p, BadUntil(limit), n - 1);
    }
  }

  lemma FoundNext(p: Pass, dram: Dram, i: nat)
    requires i < |p.plan|
    ensures |p.Found(dram, i + 1)| == |p.Found(dram, i)| + if p.Bad(dram, i) then 1 else 0
  {
  }

  /** All errors are in lane 0. */
  lemma {:induction false} BadLanes(p: Pass, limit: nat, n: nat)
    requires Loaded(p) && n <= |p.plan|
    ensures OnlyLane0(p.Found(BadUntil(limit), n))
  {
    if n > 0 {
      BadLanes(p, limit, n - 1);
      BadWord(p, limit, n - 1);
      FoundNext(p, BadUntil(limit), n - 1);
      forall j | 0 <= j < 4
        ensures LaneCount(p.Found(BadUntil(limit), n), j) == if j == 0 then |p.Found(BadUntil(limit), n)| else 0
      {
        OneMoreWord(p, BadUntil(limit), n - 1, j);
      }
    }
  }

  ghost predicate OnlyLane0(log: seq<Mismatch>) {
    forall j :: 0 <= j < 4 ==> LaneCount(log, j) == if j == 0 then |log| else 0
  }

  /** No pass stops early, and the first `limit` words read are the errors. */
  lemma {:induction false} BadRun(passes: seq<Pass>, stops: seq<nat>, limit: nat, began: nat, time: nat)
    requires Stops(BadUntil(limit), passes, stops) && Timed(passes, stops, began, time)
    requires forall k :: 0 <= k < |passes| ==> Loaded(passes[k])
    ensures time == began + WordsOf(passes) && OnlyLane0(AllFound(BadUntil(limit), passes, stops))
    ensures |AllFound(BadUntil(limit), passes, stops)| == Min(time, limit) - Min(began, limit)
  {
    if passes != [] {
      var k := |passes| - 1;
      var dram := BadUntil(limit);
      var before, last := AllFound(dram, passes[..k], stops[..k]), passes[k].Found(dram, stops[k]);
      BadRun(passes[..k], stops[..k], limit, began, passes[k].t0);
      BadFound(passes[k], limit, stops[k]);
      BadLanes(passes[k], limit, stops[k]);
      assert StopsAt(dram, passes[k], stops[k]) && LaneCount(last, 1) == 0;
      forall j | 0 <= j < 4 ensures LaneCount(before + last, j) == if j == 0 then |before + last| else 0 {
        LaneCountAppend(before, last, j);
      }
    }
  }

  /** A run on that memory: its errors are the first `limit` words read, or all of them. With
      limit 2^31 a store leaves the buffer exactly when the tests have that many words; with
      limit 2^32 the counters then say that there was no error. */
  method WorstRun(c: Config, sel: bv32, limit: nat) returns (t: Tester)
    ensures fresh(t) && t.dram == BadUntil(limit) && t.InTest(Between)
    ensures var n := Min(limit, TotalWords(Chosen(sel), 15, c));
            && |t.log| == n && t.werr == Wrap32(n) && t.errcnt == [Wrap32(n), 0, 0, 0]
            && (t.strays == [-3] <==> n < 0x8000_0000)
            && (AllClean(t.passes, t.dram) <==> n == 0)
    ensures TotalWords(Chosen(sel), 15, c) < 0x1_0000_0000 ==> Judging(t.dram, t.passes, t.errcnt, t.werr)
  {
    t := new Tester(BadUntil(limit));
    ghost var r := t.rseed;
    MemtestAll(t, c, sel);
    RanLoaded(t.passes, Chosen(sel), 15, c, r);
    RanWords(t.passes, Chosen(sel), 15, c, r);
    BadRun(t.passes, t.stops, limit, 0, t.time);
    LogVerdicts(t.dram, t.passes, t.stops);
    BadCounters(t.errcnt, t.log);
  }

  /** Both bounds are exact: a store leaves the buffer on some memory if and only if the tests
      have 2^31 words or more, and on some memory the counters misjudge the ranges if and only
      if they have 2^32 words or more. */
  method ExactBounds(c: Config, sel: bv32) returns (t: Tester, u: Tester)
    ensures t.strays == [-3] <==> TotalWords(Chosen(sel), 15, c) < 0x8000_0000
    ensures Judging(u.dram, u.passes, u.errcnt, u.werr) <==> TotalWords(Chosen(sel), 15, c) < 0x1_0000_0000
  {
    t := WorstRun(c, sel, 0x8000_0000);
    u := WorstRun(c, sel, 0x1_0000_0000);
  }

  lemma BadCounters(errcnt: seq<int>, log: seq<Mismatch>)
    requires |errcnt| == 4 && Counted(errcnt, NO_ERRORS, log) && OnlyLane0(log)
    ensures errcnt == [Wrap32(|log|), 0, 0, 0]
  {
    forall j | 0 <= j < 4 ensures errcnt[j] == if j == 0 then Wrap32(|log|) else 0 {
      CountedAt(errcnt, log, j);
    }
  }

  // ----- the sizes of the menu

  lemma AllChosen()
    ensures forall m :: 0 <= m < 15 ==> Chosen(0x7fff)[m]
  {
    forall m | 0 <= m < 15 ensures Has(0x7fff, m) {
      InMask(m);
    }
  }

  lemma InMask(m: nat)
    requires m < 15
    ensures 0x7fff & Mask(m) != 0
  {
  }

  /** All tests of a range of whole megabytes. */
  lemma {:induction false} WordsOfAll(mb: nat, m: nat, c: Config)
    requires m <= 15 && c.size == 0x10_0000 * mb && c.loop != -1
    ensures TotalWords(Chosen(0x7fff), m, c) == 0x4_0000 * (m * mb)
  {
    AllChosen();
    if m > 0 {
      WordsOfAll(mb, m - 1, c);
      MegabyteWords(mb, m - 1, c);
      Distribute(m, mb);
    }
  }

  lemma Distribute(m: int, mb: int)
    ensures 0x4_0000 * (m * mb) == 0x4_0000 * ((m - 1) * mb) + 0x4_0000 * mb
  {
    assert m * mb == (m - 1) * mb + mb;
  }

  lemma MegabyteWords(mb: nat, mode: nat, c: Config)
    requires c.size == 0x10_0000 * mb
    ensures PlanSize(mode, c) == 0x4_0000 * mb
  {
    if mb > 0 {
      DivMod(0x4_0000 * mb, 4, 3);
      DivMod(0x1_0000 * mb, 16, 15);
    }
  }

  /** Of the sizes in the menu only the largest, 1023 megabytes, has 2^31 words or more. */
  lemma MenuSizes(mb: nat, c: Config)
    requires mb in {1, 32, 64, 128, 255, 511, 1023} && c.size == 0x10_0000 * mb && c.loop != -1
    ensures TotalWords(Chosen(0x7fff), 15, c) < 0x8000_0000 <==> mb != 1023
    ensures mb == 1023 ==> TotalWords(Chosen(0x7fff), 15, c) == 4022599680
  {
    WordsOfAll(mb, 15, c);
  }

  /** And there one bad byte lane does it: the counter is negative at the end and stores have
      left the buffer. */
  method LargestMenuTest(bus32: bool) returns (t: Tester)
    ensures fresh(t) && t.werr == -272367616 && t.errcnt == [-272367616, 0, 0, 0] && |t.log| == 4022599680
    ensures t.strays != [-3]
  {
    var c := Config(0x10_0000, 0x10_0000 * 1023, 0, bus32, 0xffff_ffff);
    MenuSizes(1023, c);
    t := WorstRun(c, 0x7fff, 0x1_0000_0000);
  }
}
