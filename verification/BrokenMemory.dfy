/** A memory that answers wrongly in every byte lane: what the early exits of memtest_all leave
    in the counters then. */
module BrokenMemory {
  import opened Arithmetic
  import opened ByteOrder
  import opened MemTest
  import opened MemTestAll
  import opened Patterns

  /** Every read differs in every lane from what was written. */
  ghost predicate Broken(dram: Dram) {
    forall t, image, a, j {:trigger ByteAt(dram(t, image, a), j)} ::
      a in image && 0 <= j < 4 ==> ByteAt(dram(t, image, a), j) != ByteAt(image[a], j)
  }

  /** One such memory returns the complement of what was written. */
  function Inverting(): Dram {
    (t: nat, image: Image, a: int) => if a in image then 0xffff_ffff - image[a] else 0
  }

  lemma InvertedBytes(w: Word, j: nat)
    requires j < 4
    ensures ByteAt(0xffff_ffff - w, j) == 255 - ByteAt(w, j)
  {
    var b0, b1, b2, b3 := ByteAt(w, 0), ByteAt(w, 1), ByteAt(w, 2), ByteAt(w, 3);
    assert w == FromBytes(b0, b1, b2, b3);
    assert 0xffff_ffff - w == FromBytes(255 - b0, 255 - b1, 255 - b2, 255 - b3);
    BytesOf(255 - b0, 255 - b1, 255 - b2, 255 - b3);
  }

  lemma InvertingIsBroken()
    ensures Broken(Inverting())
  {
    forall t, image: Image, a, j | a in image && 0 <= j < 4
      ensures ByteAt(Inverting()(t, image, a), j) != ByteAt(image[a], j)
    {
      InvertedBytes(image[a], j);
    }
  }

  /** Every word is in the log and counts in every lane. */
  ghost predicate Everywhere(log: seq<Mismatch>, n: nat) {
    |log| == n && forall j :: 0 <= j < 4 ==> LaneCount(log, j) == n
  }

  lemma BrokenWord(p: Pass, dram: Dram, i: nat)
    requires Broken(dram) && Loaded(p) && i < |p.plan|
    ensures p.Bad(dram, i) && forall j :: 0 <= j < 4 ==> p.BadLane(dram, i, j)
  {
    assert ByteAt(p.Data(dram, i), 0) != ByteAt(p.plan[i].ref, 0);
  }

  lemma {:induction false} BrokenFound(p: Pass, dram: Dram, n: nat)
    requires Broken(dram) && Loaded(p) && n <= |p.plan|
    ensures Everywhere(p.Found(dram, n), n)
  {
    if n > 0 {
      BrokenFound(p, dram, n - 1);
      BrokenWord(p, dram, n - 1);
      FoundNext(p, dram, n - 1);
      forall j | 0 <= j < 4 ensures LaneCount(p.Found(dram, n), j) == n {
        OneMoreWord(p, dram, n - 1, j);
      }
    }
  }

  /** The words a test of `n` words then reads: 1001, or the next multiple of 4 if it looks
      only after each group. */
  function Cut(mode: nat, n: nat): nat {
    Min(n, if 1 <= mode <= 8 then 1004 else 1001)
  }

  lemma BrokenStop(p: Pass, dram: Dram, n: nat)
    requires Broken(dram) && Loaded(p) && StopsAt(dram, p, n)
    ensures n == Cut(p.mode, |p.plan|)
  {
    var cut := Cut(p.mode, |p.plan|);
    BrokenFound(p, dram, n);
    BrokenFound(p, dram, cut);
    assert LaneCount(p.Found(dram, n), 0) == n;
    assert cut < |p.plan| ==> Saturated(dram, p, cut);
  }

  /** The errors of a whole run: each test contributes its words, cut at the early exit. */
  function CutWords(chosen: seq<bool>, m: nat, c: Config): nat
    requires m <= |chosen|
  {
    if m == 0 then 0
    else CutWords(chosen, m - 1, c) + if chosen[m - 1] && ReadsBack(m - 1, c) then Cut(m - 1, PlanSize(m - 1, c)) else 0
  }

  lemma {:induction false} CutBound(chosen: seq<bool>, m: nat, c: Config)
    requires m <= |chosen|
    ensures CutWords(chosen, m, c) <= 1004 * m
  {
    if m > 0 {
      CutBound(chosen, m - 1, c);
    }
  }

  lemma {:induction false} BrokenLog(dram: Dram, passes: seq<Pass>, stops: seq<nat>,
                                     chosen: seq<bool>, m: nat, c: Config, rseed: int)
    requires m <= |chosen| && Broken(dram) && Ran(passes, chosen, m, c, rseed) && Stops(dram, passes, stops)
    ensures Everywhere(AllFound(dram, passes, stops), CutWords(chosen, m, c))
  {
    if m > 0 {
      if chosen[m - 1] && ReadsBack(m - 1, c) {
        var k := |passes| - 1;
        var before, last := AllFound(dram, passes[..k], stops[..k]), passes[k].Found(dram, stops[k]);
        BrokenLog(dram, passes[..k], stops[..k], chosen, m - 1, c, rseed);
        BrokenStop(passes[k], dram, stops[k]);
        BrokenFound(passes[k], dram, stops[k]);
        forall j | 0 <= j < 4 ensures LaneCount(before + last, j) == CutWords(chosen, m, c) {
          LaneCountAppend(before, last, j);
        }
      } else {
        BrokenLog(dram, passes, stops, chosen, m - 1, c, rseed);
      }
    }
  }

  /** memtest_all on such a memory: the counters are exact numbers for every selection and every
      size, because each test stops at the first word, or group, after its 1000th. */
  method BrokenRun(t: Tester, c: Config, sel: bv32)
    requires t.errBuf.Length == 256 && Broken(t.dram)
    modifies t, t.errBuf
    ensures var n := CutWords(Chosen(sel), 15, c);
            |t.log| == n && t.werr == n && t.errcnt == [n, n, n, n] && t.strays == [-3]
  {
    ghost var r, n := t.rseed, CutWords(Chosen(sel), 15, c);
    MemtestAll(t, c, sel);
    BrokenLog(t.dram, t.passes, t.stops, Chosen(sel), 15, c, r);
    CutBound(Chosen(sel), 15, c);
    BrokenCounters(t.errcnt, t.log, n);
  }

  lemma BrokenCounters(errcnt: seq<int>, log: seq<Mismatch>, n: nat)
    requires |errcnt| == 4 && Counted(errcnt, NO_ERRORS, log) && Everywhere(log, n) && Int32(n)
    ensures errcnt == [n, n, n, n]
  {
    forall j | 0 <= j < 4 ensures errcnt[j] == n {
      CountedAt(errcnt, log, j);
    }
  }

  /** All tests over a range of some megabytes find 1001 errors seven times and 1004 eight times. */
  lemma {:induction false} CutMenu(mb: nat, m: nat, c: Config)
    requires m <= 15 && mb > 0 && c.size == 0x10_0000 * mb && c.loop != -1
    ensures CutWords(Chosen(0x7fff), m, c) == 1001 * m + 3 * (if m <= 1 then 0 else if m <= 9 then m - 1 else 8)
  {
    AllChosen();
    if m > 0 {
      CutMenu(mb, m - 1, c);
      MegabyteWords(mb, m - 1, c);
    }
  }
}
