/** The DRAM test routines: write a pattern, read it back, count mismatches per byte lane,
    record the first ones and stop early when every lane has more than 1000. Memory is an
    arbitrary oracle, so the results hold for every faulty memory. */
module MemTest {
  import opened Arithmetic
  import opened BitSet
  import opened ByteOrder

  type Image = map<int, Word>

  /** What a read returns, depending on when it happens, on everything written so far and
      on the address: any behaviour at all. */
  type Dram = (nat, Image, int) -> Word

  /** One word of a test: its address, the value expected there, and the address that the
      routine hands to error_info if it finds something else. */
  datatype Probe = Probe(addr: int, ref: Word, recorded: int)

  datatype Mismatch = Mismatch(addr: int, recorded: int, ref: Word, data: Word)
  {
    predicate InLane(j: nat)
      requires j < 4
    {
      ByteAt(ref, j) != ByteAt(data, j)
    }
  }

  /** The read pass of one test: it begins with read number `t0` on memory `image`. */
  datatype Pass = Pass(mode: nat, t0: nat, image: Image, plan: seq<Probe>)
  {
    /** What the memory answers for word `i`, whether or not the test gets that far. */
    function Data(dram: Dram, i: nat): Word
      requires i < |plan|
    {
      dram(t0 + i, image, plan[i].addr)
    }

    predicate Bad(dram: Dram, i: nat)
      requires i < |plan|
    {
      Data(dram, i) != plan[i].ref
    }

    predicate BadLane(dram: Dram, i: nat, j: nat)
      requires i < |plan| && j < 4
    {
      ByteAt(plan[i].ref, j) != ByteAt(Data(dram, i), j)
    }

    /** No word of the whole range mismatches, or none in lane `j`. */
    ghost predicate Clean(dram: Dram) {
      forall i :: 0 <= i < |plan| ==> !Bad(dram, i)
    }

    ghost predicate LaneClean(dram: Dram, j: nat)
      requires j < 4
    {
      forall i :: 0 <= i < |plan| ==> !BadLane(dram, i, j)
    }

    /** The mismatches among the first `n` words, in order. */
    function Found(dram: Dram, n: nat): seq<Mismatch>
      requires n <= |plan|
    {
      if n == 0 then []
      else
        var p := plan[n - 1];
        Found(dram, n - 1) +
        if Bad(dram, n - 1) then [Mismatch(p.addr, p.recorded, p.ref, Data(dram, n - 1))] else []
    }
  }

  function LaneCount(log: seq<Mismatch>, j: nat): nat
    requires j < 4
  {
    if log == [] then 0
    else LaneCount(log[..|log| - 1], j) + if log[|log| - 1].InLane(j) then 1 else 0
  }

  // ----- facts about counts

  lemma WordByLanes(a: Word, b: Word)
    ensures a == b <==> forall j :: 0 <= j < 4 ==> ByteAt(a, j) == ByteAt(b, j)
  {
    if forall j :: 0 <= j < 4 ==> ByteAt(a, j) == ByteAt(b, j) {
      assert ByteAt(a, 0) == ByteAt(b, 0) && ByteAt(a, 1) == ByteAt(b, 1);
      assert ByteAt(a, 2) == ByteAt(b, 2) && ByteAt(a, 3) == ByteAt(b, 3);
      assert a == FromBytes(ByteAt(a, 0), ByteAt(a, 1), ByteAt(a, 2), ByteAt(a, 3));
      assert b == FromBytes(ByteAt(b, 0), ByteAt(b, 1), ByteAt(b, 2), ByteAt(b, 3));
    }
  }

  /** Each lane counts at most all word errors, and together the lanes count them all. */
  lemma {:induction false} CountBounds(log: seq<Mismatch>)
    requires forall k :: 0 <= k < |log| ==> log[k].ref != log[k].data
    ensures LaneCount(log, 0) <= |log| && LaneCount(log, 1) <= |log|
    ensures LaneCount(log, 2) <= |log| && LaneCount(log, 3) <= |log|
    ensures |log| <= LaneCount(log, 0) + LaneCount(log, 1) + LaneCount(log, 2) + LaneCount(log, 3)
  {
    if log != [] {
      var m := log[|log| - 1];
      CountBounds(log[..|log| - 1]);
      WordByLanes(m.ref, m.data);
      assert m.InLane(0) || m.InLane(1) || m.InLane(2) || m.InLane(3);
    }
  }

  lemma LaneCountLast(log: seq<Mismatch>, m: Mismatch, j: nat)
    requires j < 4
    ensures LaneCount(log + [m], j) == LaneCount(log, j) + if m.InLane(j) then 1 else 0
  {
    assert (log + [m])[..|log|] == log;
  }

  /** A lane has no entry in the log of a prefix exactly when no word of it mismatches there. */
  lemma {:induction false} NoneFound(p: Pass, dram: Dram, n: nat, j: nat)
    requires n <= |p.plan| && j < 4
    ensures LaneCount(p.Found(dram, n), j) == 0 <==> forall i :: 0 <= i < n ==> !p.BadLane(dram, i, j)
  {
    if n > 0 {
      NoneFound(p, dram, n - 1, j);
      OneMoreWord(p, dram, n - 1, j);
    }
  }

  /** One more word adds to a lane's count exactly if it mismatches in that lane. */
  lemma OneMoreWord(p: Pass, dram: Dram, i: nat, j: nat)
    requires i < |p.plan| && j < 4
    ensures LaneCount(p.Found(dram, i + 1), j) ==
            LaneCount(p.Found(dram, i), j) + if p.BadLane(dram, i, j) then 1 else 0
  {
    var before := p.Found(dram, i);
    WordByLanes(p.plan[i].ref, p.Data(dram, i));
    if p.Bad(dram, i) {
      LaneCountLast(before, Mismatch(p.plan[i].addr, p.plan[i].recorded, p.plan[i].ref, p.Data(dram, i)), j);
    } else {
      assert p.Found(dram, i + 1) == before;
    }
  }

  lemma {:induction false} NothingFound(p: Pass, dram: Dram, n: nat)
    requires n <= |p.plan|
    ensures p.Found(dram, n) == [] <==> forall i :: 0 <= i < n ==> !p.Bad(dram, i)
  {
    if n > 0 {
      NothingFound(p, dram, n - 1);
    }
  }

  /** Stopping early, once every lane has errors, changes no verdict about the whole range. */
  lemma EarlyBreak(p: Pass, dram: Dram, n: nat)
    requires n <= |p.plan|
    requires n == |p.plan| || forall j :: 0 <= j < 4 ==> LaneCount(p.Found(dram, n), j) > 0
    ensures forall j :: 0 <= j < 4 ==> (LaneCount(p.Found(dram, n), j) == 0 <==> p.LaneClean(dram, j))
    ensures p.Found(dram, n) == [] <==> p.Clean(dram)
  {
    forall j | 0 <= j < 4
      ensures LaneCount(p.Found(dram, n), j) == 0 <==> p.LaneClean(dram, j)
    {
      NoneFound(p, dram, n, j);
    }
    NothingFound(p, dram, n);
    if n < |p.plan| {
      assert LaneCount(p.Found(dram, n), 0) > 0;
      assert p.Found(dram, n) != [];
    }
  }

  // ----- the globals of the test program

  /** The first 80 mismatches are in the buffer, three cells each; up to cell 250 the others are 0. */
  ghost predicate Buffered(buf: seq<int>, log: seq<Mismatch>) {
    && |buf| == 256 && (forall i :: 3 * Min(|log|, 80) <= i < 250 ==> buf[i] == 0)
    && forall k :: 0 <= k < |log| && k < 80 ==>
         buf[3 * k] == log[k].recorded && buf[3 * k + 1] == log[k].ref && buf[3 * k + 2] == log[k].data
  }

  ghost predicate Genuine(log: seq<Mismatch>) {
    forall k :: 0 <= k < |log| ==> log[k].ref != log[k].data
  }

  /** The global lane counts, as C ints, are the lane counts of the log less the local ones. */
  ghost predicate Counted(errcnt: seq<int>, lerr: seq<int>, log: seq<Mismatch>)
    requires |errcnt| == |lerr| == 4
  {
    forall j :: 0 <= j < 4 ==> errcnt[j] == Wrap32(LaneCount(log, j) - lerr[j])
  }

  lemma CountsMore(errcnt: seq<int>, lerr: seq<int>, lerr': seq<int>, log: seq<Mismatch>, m: Mismatch)
    requires |errcnt| == |lerr| == |lerr'| == 4 && Counted(errcnt, lerr, log)
    requires forall j :: 0 <= j < 4 ==> lerr'[j] == lerr[j] + if m.InLane(j) then 1 else 0
    ensures Counted(errcnt, lerr', log + [m])
  {
    forall j | 0 <= j < 4 ensures errcnt[j] == Wrap32(LaneCount(log + [m], j) - lerr'[j]) {
      LaneCountLast(log, m, j);
    }
  }

  lemma CountsJoined(errcnt: seq<int>, lerr: seq<int>, errcnt': seq<int>, log: seq<Mismatch>)
    requires |errcnt| == |lerr| == |errcnt'| == 4 && Counted(errcnt, lerr, log)
    requires forall j :: 0 <= j < 4 ==> errcnt'[j] == Wrap32(errcnt[j] + lerr[j])
    ensures Counted(errcnt', NO_ERRORS, log)
  {
    forall j | 0 <= j < 4 ensures errcnt'[j] == Wrap32(LaneCount(log, j) - NO_ERRORS[j]) {
      WrapPlus(LaneCount(log, j) - lerr[j], lerr[j]);
    }
  }

  // ----- the error buffer and the mailbox

  /** The mailbox for a log: its first entry. */
  function FirstError(log: seq<Mismatch>): (int, int, int) {
    if log == [] then (0, 0, 0) else (log[0].recorded, log[0].ref, log[0].data)
  }

  /** Up to 2^31 - 1 errors the buffer holds the first 80, the mailbox the first one, and only
      the initial call has stored outside the buffer; with the next error the counter has
      wrapped and another store has left the buffer. */
  ghost predicate Kept(buf: seq<int>, info: (int, int, int), strays: seq<int>, log: seq<Mismatch>) {
    if |log| < 0x8000_0000
    then Buffered(buf, log) && info == FirstError(log) && strays == [-3]
    else |strays| > 1
  }

  lemma BufferedMore(buf: seq<int>, log: seq<Mismatch>, m: Mismatch)
    requires Buffered(buf, log)
    ensures var n := |log|;
            Buffered(if n < 80 then buf[3 * n := m.recorded][3 * n + 1 := m.ref][3 * n + 2 := m.data] else buf,
                     log + [m])
  {
  }

  /** What error_info does once the counter is `werr`. */
  ghost predicate Informed(werr: int, m: (int, int, int), buf: seq<int>, info: (int, int, int), strays: seq<int>,
                           buf': seq<int>, info': (int, int, int), strays': seq<int>)
    requires |buf| == 256
  {
    var i := 3 * (werr - 1);
    && info' == (if werr <= 1 then m else info)
    && buf' == (if 1 <= werr <= 80 then buf[i := m.0][i + 1 := m.1][i + 2 := m.2] else buf)
    && strays' == (if werr <= 0 then strays + [i] else strays)
  }

  lemma KeptMore(buf: seq<int>, info: (int, int, int), strays: seq<int>, log: seq<Mismatch>, m: Mismatch,
                 buf': seq<int>, info': (int, int, int), strays': seq<int>)
    requires |buf| == 256 && Kept(buf, info, strays, log)
    requires Informed(Wrap32(|log| + 1), (m.recorded, m.ref, m.data), buf, info, strays, buf', info', strays')
    ensures Kept(buf', info', strays', log + [m])
  {
    if |log| + 1 < 0x8000_0000 {
      BufferedMore(buf, log, m);
    }
  }

  method CountLanes(m: Mismatch, lerr0: seq<int>) returns (lerr: seq<int>)
    requires |lerr0| == 4
    ensures |lerr| == 4 && forall j :: 0 <= j < 4 ==> lerr[j] == lerr0[j] + if m.InLane(j) then 1 else 0
  {
    lerr := lerr0;
    if m.InLane(0) { lerr := lerr[0 := lerr[0] + 1]; }
    if m.InLane(1) { lerr := lerr[1 := lerr[1] + 1]; }
    if m.InLane(2) { lerr := lerr[2 := lerr[2] + 1]; }
    if m.InLane(3) { lerr := lerr[3 := lerr[3] + 1]; }
  }

  /** Memory after a write pass. */
  function WriteAll(image: Image, plan: seq<Probe>): Image {
    if plan == [] then image
    else
      var last := plan[|plan| - 1];
      WriteAll(image, plan[..|plan| - 1])[last.addr := last.ref]
  }

  /** The modes of the passes whose range holds a mismatch. */
  ghost function FailedModes(passes: seq<Pass>, dram: Dram): (modes: set<nat>)
    ensures forall m :: m in modes <==> exists k :: 0 <= k < |passes| && passes[k].mode == m && !passes[k].Clean(dram)
  {
    set k | 0 <= k < |passes| && !passes[k].Clean(dram) :: passes[k].mode
  }

  /** memtest_simple, which modes 1 to 8 use, looks for the early exit after every fourth word. */
  predicate Grouped(mode: nat) {
    1 <= mode <= 8
  }

  /** After `n` words of a pass the routine looks for the early exit. */
  predicate Checkpoint(mode: nat, n: nat) {
    Grouped(mode) ==> n % 4 == 0
  }

  /** The first `n` words of a pass have more than 1000 errors in every lane. */
  ghost predicate Saturated(dram: Dram, p: Pass, n: nat) {
    n <= |p.plan| && forall j :: 0 <= j < 4 ==> LaneCount(p.Found(dram, n), j) > 1000
  }

  /** The pass is not over before word `n`. */
  ghost predicate GoesOnTo(dram: Dram, p: Pass, n: nat) {
    forall m :: 0 <= m < n && Checkpoint(p.mode, m) ==> !Saturated(dram, p, m)
  }

  /** A pass stops at the first checkpoint with more than 1000 errors in every lane, or at its
      end. */
  ghost predicate StopsAt(dram: Dram, p: Pass, n: nat) {
    && n <= |p.plan| && GoesOnTo(dram, p, n)
    && (n == |p.plan| || (Checkpoint(p.mode, n) && Saturated(dram, p, n)))
  }

  /** That fixes where it stops. */
  lemma StopsOnce(dram: Dram, p: Pass, n: nat, n': nat)
    requires StopsAt(dram, p, n) && StopsAt(dram, p, n')
    ensures n == n'
  {
  }

  ghost predicate Stops(dram: Dram, passes: seq<Pass>, stops: seq<nat>) {
    |passes| == |stops| && forall k :: 0 <= k < |passes| ==> StopsAt(dram, passes[k], stops[k])
  }

  /** So memory and passes fix where every pass stops, hence the log. */
  lemma StopsFixed(dram: Dram, passes: seq<Pass>, stops: seq<nat>, stops': seq<nat>)
    requires Stops(dram, passes, stops) && Stops(dram, passes, stops')
    ensures stops == stops'
  {
    forall k | 0 <= k < |passes| ensures stops[k] == stops'[k] {
      StopsOnce(dram, passes[k], stops[k], stops'[k]);
    }
  }

  ghost function AllFound(dram: Dram, passes: seq<Pass>, stops: seq<nat>): seq<Mismatch>
    requires Stops(dram, passes, stops)
  {
    var k := |passes| - 1;
    if passes == [] then []
    else AllFound(dram, passes[..k], stops[..k]) + passes[k].Found(dram, stops[k])
  }

  lemma FoundMore(dram: Dram, passes: seq<Pass>, stops: seq<nat>, p: Pass, n: nat)
    requires Stops(dram, passes, stops) && StopsAt(dram, p, n)
    ensures Stops(dram, passes + [p], stops + [n])
    ensures AllFound(dram, passes + [p], stops + [n]) == AllFound(dram, passes, stops) + p.Found(dram, n)
  {
    var k := |passes|;
    assert (passes + [p])[..k] == passes && (stops + [n])[..k] == stops;
  }

  const NO_ERRORS: seq<int> := [0, 0, 0, 0]

  lemma FailedMore(passes: seq<Pass>, dram: Dram, p: Pass)
    ensures FailedModes(passes + [p], dram) == FailedModes(passes, dram) + if p.Clean(dram) then {} else {p.mode}
  {
    var all := passes + [p];
    forall m: nat
      ensures m in FailedModes(all, dram) <==> m in FailedModes(passes, dram) || (!p.Clean(dram) && m == p.mode)
    {
      if m in FailedModes(passes, dram) {
        var k :| 0 <= k < |passes| && passes[k].mode == m && !passes[k].Clean(dram);
        assert all[k] == passes[k];
      }
      if !p.Clean(dram) && m == p.mode {
        assert all[|passes|] == p;
      }
    }
  }

  lemma NothingFailed(dram: Dram)
    ensures Encodes(0, FailedModes([], dram))
  {
    EncodesNone();
    assert FailedModes([], dram) == {};
  }

  ghost predicate AllClean(passes: seq<Pass>, dram: Dram) {
    forall k :: 0 <= k < |passes| ==> passes[k].Clean(dram)
  }

  ghost predicate AllLaneClean(passes: seq<Pass>, dram: Dram, j: nat)
    requires j < 4
  {
    forall k :: 0 <= k < |passes| ==> passes[k].LaneClean(dram, j)
  }

  /** What the passes found in the words they read decides about their whole ranges. */
  lemma {:induction false} LogVerdicts(dram: Dram, passes: seq<Pass>, stops: seq<nat>)
    requires Stops(dram, passes, stops)
    ensures AllFound(dram, passes, stops) == [] <==> AllClean(passes, dram)
    ensures forall j :: 0 <= j < 4 ==>
              (LaneCount(AllFound(dram, passes, stops), j) == 0 <==> AllLaneClean(passes, dram, j))
  {
    if passes != [] {
      var k := |passes| - 1;
      var before := AllFound(dram, passes[..k], stops[..k]);
      LogVerdicts(dram, passes[..k], stops[..k]);
      EarlyBreak(passes[k], dram, stops[k]);
      AllMore(dram, passes);
      forall j | 0 <= j < 4
        ensures LaneCount(AllFound(dram, passes, stops), j) == 0 <==> AllLaneClean(passes, dram, j)
      {
        LaneCountAppend(before, passes[k].Found(dram, stops[k]), j);
      }
    }
  }

  lemma AllMore(dram: Dram, passes: seq<Pass>)
    requires passes != []
    ensures var k := |passes| - 1;
            && (AllClean(passes, dram) <==> AllClean(passes[..k], dram) && passes[k].Clean(dram))
            && forall j :: 0 <= j < 4 ==>
                 (AllLaneClean(passes, dram, j) <==> AllLaneClean(passes[..k], dram, j) && passes[k].LaneClean(dram, j))
  {
    var k := |passes| - 1;
    assert passes == passes[..k] + [passes[k]];
  }

  lemma {:induction false} LaneCountAppend(a: seq<Mismatch>, b: seq<Mismatch>, j: nat)
    requires j < 4
    ensures LaneCount(a + b, j) == LaneCount(a, j) + LaneCount(b, j)
  {
    if b == [] {
      assert a + b == a;
    } else {
      LaneCountAppend(a, b[..|b| - 1], j);
      assert (a + b)[..|a + b| - 1] == a + b[..|b| - 1];
    }
  }

  /** A test that found errors adds its bit, `epp += 1 << mode`, and nothing carries. */
  lemma EppMore(dram: Dram, passes: seq<Pass>, p: Pass, merr: nat, epp: bv32)
    requires Encodes(epp, FailedModes(passes, dram)) && p.mode < 16 && (merr == 0 <==> p.Clean(dram))
    requires forall k :: 0 <= k < |passes| ==> passes[k].mode != p.mode
    ensures Encodes(Plus(epp, p.mode, merr > 0), FailedModes(passes + [p], dram))
  {
    FailedMore(passes, dram, p);
    EncodesIf(epp, FailedModes(passes, dram), p.mode, merr > 0, FailedModes(passes + [p], dram));
  }

  /** More than 1000 errors in every lane. */
  predicate Enough(lerr: seq<int>)
    requires |lerr| == 4
  {
    lerr[0] > 1000 && lerr[1] > 1000 && lerr[2] > 1000 && lerr[3] > 1000
  }

  /** Local counts of one test. */
  ghost predicate Tally(merr: nat, lerr: seq<int>, found: seq<Mismatch>) {
    && |lerr| == 4 && merr == |found|
    && forall j :: 0 <= j < 4 ==> lerr[j] == LaneCount(found, j)
  }

  /** The first `n` words of the pass have been read and judged. */
  ghost predicate ReadTo(p: Pass, dram: Dram, n: nat, log0: seq<Mismatch>, log: seq<Mismatch>,
                         merr: nat, lerr: seq<int>)
  {
    n <= |p.plan| && log == log0 + p.Found(dram, n) && Tally(merr, lerr, p.Found(dram, n))
  }

  /** Some pass is that of test `b`. */
  ghost predicate HasMode(passes: seq<Pass>, b: nat) {
    exists k :: 0 <= k < |passes| && passes[k].mode == b
  }

  /** Whether the loop of a pass goes on. */
  datatype Course = Running | Stopped

  function CourseOf(stop: bool): Course {
    if stop then Stopped else Running
  }

  /** The loop of a pass has read `n` words and looked for the early exit. */
  ghost predicate Stands(course: Course, p: Pass, dram: Dram, n: nat, log0: seq<Mismatch>, log: seq<Mismatch>,
                         merr: nat, lerr: seq<int>)
  {
    match course
    case Running => ReadTo(p, dram, n, log0, log, merr, lerr) && GoesOnTo(dram, p, n + 1)
    case Stopped => ReadTo(p, dram, n, log0, log, merr, lerr) && StopsAt(dram, p, n)
  }

  lemma NothingRead(p: Pass, dram: Dram, log: seq<Mismatch>)
    ensures Stands(Running, p, dram, 0, log, log, 0, NO_ERRORS)
  {
    assert LaneCount(p.Found(dram, 0), 0) == 0;
  }

  /** What the test at the end of the loop body decides. */
  lemma StandsNext(p: Pass, dram: Dram, n: nat, log0: seq<Mismatch>, log: seq<Mismatch>,
                   merr: nat, lerr: seq<int>, stop: bool)
    requires GoesOnTo(dram, p, n) && ReadTo(p, dram, n, log0, log, merr, lerr)
    requires stop == (Checkpoint(p.mode, n) && merr != 0 && Enough(lerr))
    ensures Stands(CourseOf(stop), p, dram, n, log0, log, merr, lerr)
  {
    assert merr == 0 ==> LaneCount(p.Found(dram, n), 0) == 0;
    assert Enough(lerr) <==> forall j :: 0 <= j < 4 ==> lerr[j] > 1000;
    assert Saturated(dram, p, n) <==> Enough(lerr);
  }

  lemma StandsAtEnd(p: Pass, dram: Dram, n: nat, log0: seq<Mismatch>, log: seq<Mismatch>,
                    merr: nat, lerr: seq<int>, stop: bool)
    requires Stands(CourseOf(stop), p, dram, n, log0, log, merr, lerr) && (stop || n == |p.plan|)
    ensures ReadTo(p, dram, n, log0, log, merr, lerr) && StopsAt(dram, p, n)
  {
  }

  lemma Append(a: seq<Mismatch>, b: seq<Mismatch>, m: Mismatch)
    ensures a + b + [m] == a + (b + [m])
  {
  }

  lemma TallyNext(merr: nat, lerr: seq<int>, merr': nat, lerr': seq<int>, p: Pass, dram: Dram, i: nat)
    requires i < |p.plan| && Tally(merr, lerr, p.Found(dram, i)) && |lerr'| == 4
    requires var q := p.plan[i];
             var m := Mismatch(q.addr, q.recorded, q.ref, p.Data(dram, i));
             if p.Bad(dram, i)
             then merr' == merr + 1 && forall j :: 0 <= j < 4 ==> lerr'[j] == lerr[j] + if m.InLane(j) then 1 else 0
             else merr' == merr && lerr' == lerr
    ensures var q := p.plan[i];
            var m := Mismatch(q.addr, q.recorded, q.ref, p.Data(dram, i));
            p.Found(dram, i + 1) == if p.Bad(dram, i) then p.Found(dram, i) + [m] else p.Found(dram, i)
    ensures Tally(merr', lerr', p.Found(dram, i + 1))
  {
    var q := p.plan[i];
    var m := Mismatch(q.addr, q.recorded, q.ref, p.Data(dram, i));
    if p.Bad(dram, i) {
      forall j | 0 <= j < 4 ensures lerr'[j] == LaneCount(p.Found(dram, i) + [m], j) {
        LaneCountLast(p.Found(dram, i), m, j);
      }
    } else {
      assert p.Found(dram, i) + [] == p.Found(dram, i);
    }
  }

  /** A pass finds at most as many mismatches as it reads words. */
  lemma {:induction false} FoundBound(p: Pass, dram: Dram, n: nat)
    requires n <= |p.plan|
    ensures |p.Found(dram, n)| <= n
  {
    if n > 0 {
      FoundBound(p, dram, n - 1);
    }
  }

  /** The words of all passes. */
  function WordsOf(passes: seq<Pass>): nat {
    if passes == [] then 0 else WordsOf(passes[..|passes| - 1]) + |passes[|passes| - 1].plan|
  }

  lemma {:induction false} AllFoundBound(dram: Dram, passes: seq<Pass>, stops: seq<nat>)
    requires Stops(dram, passes, stops)
    ensures |AllFound(dram, passes, stops)| <= WordsOf(passes)
  {
    if passes != [] {
      var k := |passes| - 1;
      AllFoundBound(dram, passes[..k], stops[..k]);
      FoundBound(passes[k], dram, stops[k]);
    }
  }

  /** The read passes follow each other: read number `began` was the first. */
  ghost predicate Timed(passes: seq<Pass>, stops: seq<nat>, began: nat, time: nat)
    requires |passes| == |stops|
  {
    if passes == [] then time == began
    else
      var k := |passes| - 1;
      time == passes[k].t0 + stops[k] && Timed(passes[..k], stops[..k], began, passes[k].t0)
  }

  lemma TimedMore(passes: seq<Pass>, stops: seq<nat>, began: nat, p: Pass, n: nat)
    requires |passes| == |stops| && Timed(passes, stops, began, p.t0)
    ensures Timed(passes + [p], stops + [n], began, p.t0 + n)
  {
    assert (passes + [p])[..|passes|] == passes && (stops + [n])[..|stops|] == stops;
  }

  // ----- the tester

  /** Between tests, or within one with local lane counts. */
  datatype Phase = Between | Within(lerr: seq<int>)

  ghost predicate Consistent(errcnt: seq<int>, lerr: seq<int>, werr: int, buf: seq<int>,
                             info: (int, int, int), strays: seq<int>, log: seq<Mismatch>)
  {
    && |errcnt| == |lerr| == 4 && |buf| == 256
    && werr == Wrap32(|log|) && Genuine(log) && Counted(errcnt, lerr, log)
    && Kept(buf, info, strays, log)
  }

  lemma StartsClean(buf: seq<int>)
    requires |buf| == 256 && forall i :: 0 <= i < 250 ==> buf[i] == 0
    ensures Consistent(NO_ERRORS, NO_ERRORS, 0, buf, (0, 0, 0), [-3], [])
  {
  }

  class Tester {
    const dram: Dram
    const errBuf: array<int>
    var image: Image
    var time: nat                   // reads so far
    var werr: int
    var errcnt: seq<int>
    var epp: bv32
    var rseed: int
    var errInfo: (int, int, int)    // the three mailbox registers
    ghost var strays: seq<int>      // indices of stores outside errBuf
    ghost var log: seq<Mismatch>
    ghost var passes: seq<Pass>
    ghost var stops: seq<nat>       // how many words each pass read
    ghost var began: nat            // reads before the first pass

    constructor (dram: Dram)
      ensures this.dram == dram && time == 0 && fresh(errBuf) && errBuf.Length == 256
    {
      this.dram := dram;
      image, time, werr, errcnt, epp, rseed, errInfo := map[], 0, 0, NO_ERRORS, 0, 0, (0, 0, 0);
      errBuf := new int[256];
      strays, log, passes, stops, began := [], [], [], [], 0;
    }

    /** Counters, buffer and mailbox belong to the log. */
    ghost predicate InTest(phase: Phase)
      reads `errcnt, `werr, `log, `errInfo, `strays, errBuf
    {
      match phase
      case Between => Consistent(errcnt, NO_ERRORS, werr, errBuf[..], errInfo, strays, log)
      case Within(lerr) => Consistent(errcnt, lerr, werr, errBuf[..], errInfo, strays, log)
    }

    /** The bits of epp are the modes of the passes with a mismatch in their range. */
    ghost predicate Flagged()
      reads `passes, `epp
    {
      Encodes(epp, FailedModes(passes, dram))
    }

    /** The log is what the passes found among the words they read. */
    ghost predicate Logged()
      reads `passes, `stops, `log, `began, `time
    {
      Stops(dram, passes, stops) && log == AllFound(dram, passes, stops) && Timed(passes, stops, began, time)
    }

    /** The initialisation at the start of memtest_all; its call of error_info stores in front
        of the buffer. */
    method Reset()
      requires errBuf.Length == 256
      modifies `werr, `errcnt, `epp, `errInfo, `strays, `log, `passes, `stops, `began, errBuf
      ensures InTest(Between) && Flagged() && Logged() && passes == [] && began == time
    {
      werr, epp, strays := 0, 0, [];
      ErrorInfo(0, 0, 0);
      ClearBuffer();
      errcnt := NO_ERRORS;
      log, passes, stops, began := [], [], [], time;
      StartsClean(errBuf[..]);
      NothingFailed(dram);
    }

    method ClearBuffer()
      requires errBuf.Length == 256
      modifies errBuf
      ensures forall i :: 0 <= i < 250 ==> errBuf[i] == 0
    {
      for j := 0 to 250
        invariant forall i :: 0 <= i < j ==> errBuf[i] == 0
      {
        errBuf[j] := 0;
      }
    }

    /** error_info. With the counter at 0 or below, its index is outside the buffer. */
    method ErrorInfo(addr: int, wrdat: int, rddat: int)
      requires errBuf.Length == 256
      modifies this`errInfo, this`strays, errBuf
      ensures Informed(werr, (addr, wrdat, rddat), old(errBuf[..]), old(errInfo), old(strays),
                       errBuf[..], errInfo, strays)
    {
      if werr <= 1 {
        errInfo := (addr, wrdat, rddat);
      }
      if werr <= 80 {
        var n := werr - 1;
        if 0 <= 3 * n < 254 {
          errBuf[3 * n] := addr;
          errBuf[3 * n + 1] := wrdat;
          errBuf[3 * n + 2] := rddat;
        } else {
          strays := strays + [3 * n];
        }
      }
    }

    /** The comparison of one word read. */
    method CheckWord(p: Probe, data: Word, merr0: nat, lerr0: seq<int>) returns (merr: nat, lerr: seq<int>)
      requires InTest(Within(lerr0))
      modifies this`werr, this`errInfo, this`strays, this`log, errBuf
      ensures InTest(Within(lerr))
      ensures var m := Mismatch(p.addr, p.recorded, p.ref, data);
              if data == p.ref then log == old(log) && merr == merr0 && lerr == lerr0
              else
                && log == old(log) + [m] && merr == merr0 + 1
                && forall j :: 0 <= j < 4 ==> lerr[j] == lerr0[j] + if m.InLane(j) then 1 else 0
    {
      merr, lerr := merr0, lerr0;
      if data != p.ref {
        WrapPlus(|log|, 1);
        werr := Wrap32(werr + 1);
        merr := merr + 1;
        var m := Mismatch(p.addr, p.recorded, p.ref, data);
        lerr := CountLanes(m, lerr0);
        CountsMore(errcnt, lerr0, lerr, log, m);
        ghost var buf, info, out := errBuf[..], errInfo, strays;
        ErrorInfo(p.recorded, p.ref, data);
        KeptMore(buf, info, out, log, m, errBuf[..], errInfo, strays);
        log := log + [m];
      }
    }

    method WritePass(plan: seq<Probe>)
      modifies this`image
      ensures image == WriteAll(old(image), plan)
    {
      for i := 0 to |plan|
        invariant image == WriteAll(old(image), plan[..i])
      {
        image := image[plan[i].addr := plan[i].ref];
        assert plan[..i + 1][..i] == plan[..i];
      }
      assert plan[..|plan|] == plan;
    }

    method ReadWord(probe: Probe, merr0: nat, lerr0: seq<int>, ghost p: Pass, ghost i: nat, ghost log0: seq<Mismatch>)
      returns (merr: nat, lerr: seq<int>)
      requires i < |p.plan| && probe == p.plan[i] && time == p.t0 + i && image == p.image
      requires InTest(Within(lerr0)) && ReadTo(p, dram, i, log0, log, merr0, lerr0)
      modifies this`time, this`werr, this`errInfo, this`strays, this`log, errBuf
      ensures InTest(Within(lerr)) && time == old(time) + 1
      ensures ReadTo(p, dram, i + 1, log0, log, merr, lerr)
    {
      var data := dram(time, image, probe.addr);
      time := time + 1;
      merr, lerr := CheckWord(probe, data, merr0, lerr0);
      TallyNext(merr0, lerr0, merr, lerr, p, dram, i);
      Append(log0, p.Found(dram, i), Mismatch(probe.addr, probe.recorded, probe.ref, data));
    }

    /** The read pass, with a chance to stop after each word or, in memtest_simple, after
        each group of four; `n` words are read. */
    method ReadPass(plan: seq<Probe>, byFour: bool, ghost mode: nat) returns (merr: nat, lerr: seq<int>, ghost n: nat)
      requires InTest(Between) && byFour == Grouped(mode)
      modifies this`time, this`werr, this`errInfo, this`strays, this`log, errBuf
      ensures InTest(Within(lerr)) && n <= |plan| && time == old(time) + n
      ensures ReadTo(Pass(mode, old(time), image, plan), dram, n, old(log), log, merr, lerr)
      ensures StopsAt(dram, Pass(mode, old(time), image, plan), n)
    {
      merr, lerr := 0, NO_ERRORS;
      ghost var p, log0 := Pass(mode, time, image, plan), log;
      NothingRead(p, dram, log);
      var i, stop := 0, false;
      while i < |plan| && !stop
        invariant i <= |plan| && time == p.t0 + i && InTest(Within(lerr))
        invariant Stands(CourseOf(stop), p, dram, i, log0, log, merr, lerr)
        decreases |plan| - i
      {
        merr, lerr, stop := ReadAndLook(plan[i], byFour, merr, lerr, p, i, log0);
        i := i + 1;
      }
      n := i;
      StandsAtEnd(p, dram, i, log0, log, merr, lerr, stop);
    }

    /** One pass through that loop. */
    method ReadAndLook(probe: Probe, byFour: bool, merr0: nat, lerr0: seq<int>,
                       ghost p: Pass, i: nat, ghost log0: seq<Mismatch>)
      returns (merr: nat, lerr: seq<int>, stop: bool)
      requires i < |p.plan| && probe == p.plan[i] && time == p.t0 + i && image == p.image && byFour == Grouped(p.mode)
      requires InTest(Within(lerr0)) && Stands(Running, p, dram, i, log0, log, merr0, lerr0)
      modifies this`time, this`werr, this`errInfo, this`strays, this`log, errBuf
      ensures InTest(Within(lerr)) && time == old(time) + 1
      ensures Stands(CourseOf(stop), p, dram, i + 1, log0, log, merr, lerr)
    {
      merr, lerr := ReadWord(probe, merr0, lerr0, p, i, log0);
      stop := (!byFour || (i + 1) % 4 == 0) && merr != 0 && Enough(lerr);
      StandsNext(p, dram, i + 1, log0, log, merr, lerr, stop);
    }

    /** One test routine: write pass, read pass, then the local counts join the globals. */
    method Test(mode: nat, plan: seq<Probe>, byFour: bool)
      requires mode < 16 && byFour == Grouped(mode) && InTest(Between) && Flagged() && Logged()
      requires !HasMode(passes, mode)
      modifies `image, `time, `werr, `errcnt, `epp, `errInfo, `strays, `log, `passes, `stops, errBuf
      ensures InTest(Between) && Flagged() && Logged()
      ensures image == WriteAll(old(image), plan)
      ensures passes == old(passes) + [Pass(mode, old(time), image, plan)]
    {
      ghost var p := Pass(mode, time, WriteAll(image, plan), plan);
      ghost var n := Perform(mode, plan, byFour);
      FoundMore(dram, old(passes), stops, p, n);
      TimedMore(old(passes), stops, began, p, n);
      stops := stops + [n];
    }

    method Perform(mode: nat, plan: seq<Probe>, byFour: bool) returns (ghost n: nat)
      requires mode < 16 && byFour == Grouped(mode) && InTest(Between) && Flagged()
      requires !HasMode(passes, mode)
      modifies `image, `time, `werr, `errcnt, `epp, `errInfo, `strays, `log, `passes, errBuf
      ensures InTest(Between) && Flagged()
      ensures image == WriteAll(old(image), plan) && time == old(time) + n
      ensures var p := Pass(mode, old(time), image, plan);
              passes == old(passes) + [p] && StopsAt(dram, p, n) && log == old(log) + p.Found(dram, n)
    {
      WritePass(plan);
      ghost var p := Pass(mode, time, image, plan);
      var merr, lerr;
      merr, lerr, n := Measure(plan, byFour, mode);
      Conclude(mode, merr, lerr, p);
    }

    /** The read pass and what its local counts say about the whole range. */
    method Measure(plan: seq<Probe>, byFour: bool, ghost mode: nat) returns (merr: nat, lerr: seq<int>, ghost n: nat)
      requires InTest(Between) && byFour == Grouped(mode)
      modifies this`time, this`werr, this`errInfo, this`strays, this`log, errBuf
      ensures InTest(Within(lerr)) && time == old(time) + n
      ensures var p := Pass(mode, old(time), image, plan);
              (merr == 0 <==> p.Clean(dram)) && StopsAt(dram, p, n) && log == old(log) + p.Found(dram, n)
    {
      ghost var p := Pass(mode, time, image, plan);
      merr, lerr, n := ReadPass(plan, byFour, mode);
      EarlyBreak(p, dram, n);
    }

    /** Adding the local counts to the globals and setting the test's bit in epp. */
    method Conclude(mode: nat, merr: nat, lerr: seq<int>, ghost p: Pass)
      requires mode < 16 && p.mode == mode && InTest(Within(lerr)) && Flagged() && (merr == 0 <==> p.Clean(dram))
      requires !HasMode(passes, mode)
      modifies this`errcnt, this`epp, this`passes
      ensures InTest(Between) && Flagged() && passes == old(passes) + [p]
    {
      AddCounts(lerr);
      EppMore(dram, passes, p, merr, epp);
      epp := Plus(epp, mode, merr > 0);
      passes := passes + [p];
    }

    method AddCounts(lerr: seq<int>)
      requires InTest(Within(lerr))
      modifies this`errcnt
      ensures InTest(Between)
    {
      ghost var errcnt0 := errcnt;
      errcnt := [Wrap32(errcnt[0] + lerr[0]), Wrap32(errcnt[1] + lerr[1]),
                 Wrap32(errcnt[2] + lerr[2]), Wrap32(errcnt[3] + lerr[3])];
      CountsJoined(errcnt0, lerr, errcnt, log);
    }
  }
}
