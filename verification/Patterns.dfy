/** What each memory test expects at every word. */
module Patterns {
  import opened Arithmetic
  import opened Lfsr
  import opened MemTest
  import opened WordNumber

  const PATTERN1: seq<bv32> := [
    0x0000_0000, 0x0000_0000, 0xFFFF_FFFF, 0x0000_0000, 0x0000_0000, 0xFFFF_FFFF, 0x0000_0000, 0xFFFF_FFFF,
    0xFFFF_FFFF, 0xFFFF_FFFF, 0x0000_0000, 0xFFFF_FFFF, 0xFFFF_FFFF, 0x0000_0000, 0xFFFF_FFFF, 0x0000_0000]

  const PATTERN1_16BIT: seq<bv32> := [
    0x0000_0000, 0x0000_FFFF, 0xFFFF_0000, 0xFFFF_0000, 0xFFFF_FFFF, 0xFFFF_0000, 0x0000_FFFF, 0x0000_FFFF,
    0x0000_0000, 0x0000_FFFF, 0xFFFF_0000, 0xFFFF_0000, 0xFFFF_FFFF, 0xFFFF_0000, 0x0000_FFFF, 0x0000_FFFF]

  const INVERT_MASK: seq<bv32> := [
    0x0101_0101, 0x0202_0202, 0x0404_0404, 0x0808_0808, 0x1010_1010, 0x2020_2020, 0x4040_4040, 0x8080_8080]

  datatype Config = Config(start: nat, size: int, loop: int, bus32: bool, qmask: bv32)

  /** Passes of `for (i=0; i<size; i+=4)` and of `for (i=0; i<size; i+=16)`. */
  function WordsIn(size: int): nat {
    if size <= 0 then 0 else (size + 3) / 4
  }

  function GroupsIn(size: int): nat {
    if size <= 0 then 0 else (size + 15) / 16
  }

  // ----- the generic test: memtest

  /** 0x12345678 + loop + 19*mode + rseed, in 32 bits. */
  function Seed(loop: int, mode: nat, rseed: int): bv32 {
    ToWord(0x1234_5678 + loop + 19 * mode + rseed)
  }

  /** The value memtest computes for word `w` (byte offset 4w) in the given mode. */
  function GenericRef(c: Config, mode: nat, w: nat): bv32 {
    if mode == 0 then ToWord(c.start + 4 * w) & c.qmask
    else if mode == 1 then 0
    else if mode == 2 then 0xFFFF_FFFF
    else if mode == 3 then 0xAAAA_AAAA
    else if mode == 4 then 0x5555_5555
    else if mode == 5 then (if w % 2 == 1 then 0xFFFF_FFFF else 0)
    else if mode == 6 then (if w % 2 == 1 then 0 else 0xFFFF_FFFF)
    else if mode == 7 then (if w % 2 == 1 then 0xAAAA_AAAA else 0x5555_5555)
    else if mode == 8 then (if w % 2 == 1 then 0x5555_5555 else 0xAAAA_AAAA)
    else if mode == 9 then PATTERN1[w % 16]
    else if mode == 10 then PATTERN1[w % 16] ^ INVERT_MASK[w / 16 % 8]
    else Run(Seed(c.loop, mode, 0), w + 1)
  }

  function GenericPlan(c: Config, mode: nat): seq<Probe> {
    seq(WordsIn(c.size), w requires 0 <= w => Probe(c.start + 4 * w, Number(GenericRef(c, mode, w)), c.start + 4 * w))
  }

  // ----- memtest_simple

  /** The four words that memtest_all passes for modes 1 to 8. */
  function SimpleArgs(mode: nat, bus32: bool): (d: seq<bv32>)
    ensures |d| == 4
  {
    if mode == 1 then [0, 0, 0, 0]
    else if mode == 2 then [0xFFFF_FFFF, 0xFFFF_FFFF, 0xFFFF_FFFF, 0xFFFF_FFFF]
    else if mode == 3 then [0xAAAA_AAAA, 0xAAAA_AAAA, 0xAAAA_AAAA, 0xAAAA_AAAA]
    else if mode == 4 then [0x5555_5555, 0x5555_5555, 0x5555_5555, 0x5555_5555]
    else if bus32 then
      if mode == 5 then [0, 0xFFFF_FFFF, 0, 0xFFFF_FFFF]
      else if mode == 6 then [0xFFFF_FFFF, 0, 0xFFFF_FFFF, 0]
      else if mode == 7 then [0x5555_5555, 0xAAAA_AAAA, 0x5555_5555, 0xAAAA_AAAA]
      else [0xAAAA_AAAA, 0x5555_5555, 0xAAAA_AAAA, 0x5555_5555]
    else
      if mode == 5 then [0xFFFF_0000, 0xFFFF_0000, 0xFFFF_0000, 0xFFFF_0000]
      else if mode == 6 then [0x0000_FFFF, 0x0000_FFFF, 0x0000_FFFF, 0x0000_FFFF]
      else if mode == 7 then [0xAAAA_5555, 0xAAAA_5555, 0xAAAA_5555, 0xAAAA_5555]
      else [0x5555_AAAA, 0x5555_AAAA, 0x5555_AAAA, 0x5555_AAAA]
  }

  /** Groups of four words; for word j of a group the routine records address addr+4+j. */
  function SimplePlan(c: Config, d: seq<bv32>): seq<Probe>
    requires |d| == 4
  {
    seq(4 * GroupsIn(c.size), w requires 0 <= w =>
        Probe(c.start + 4 * w, Number(d[w % 4] & c.qmask), c.start + 16 * (w / 4) + 4 + w % 4))
  }

  // ----- memtest_pat128

  function Base(bus32: bool, i: nat): bv32 {
    if bus32 then PATTERN1[i % 16] else PATTERN1_16BIT[i % 16]
  }

  /** Entry `i` of the 128-word table built by update_patterns. */
  function TableEntry(bus32: bool, inverted: bool, i: nat): bv32
    requires i < 128
  {
    if inverted then Base(bus32, i) ^ INVERT_MASK[i / 16 % 8] else Base(bus32, i)
  }

  function Table(bus32: bool, inverted: bool): (t: seq<bv32>)
    ensures |t| == 128
  {
    seq(128, i requires 0 <= i < 128 => TableEntry(bus32, inverted, i))
  }

  /** update_patterns. */
  method UpdatePatterns(bus32: bool, pat1: array<bv32>, pat2: array<bv32>)
    requires pat1.Length == pat2.Length == 128 && pat1 != pat2
    modifies pat1, pat2
    ensures pat1[..] == Table(bus32, false) && pat2[..] == Table(bus32, true)
  {
    for i := 0 to 128
      invariant pat1[..i] == Table(bus32, false)[..i]
      invariant pat2[..i] == Table(bus32, true)[..i]
    {
      var imaski := i / 16 % 8;
      var base := Base(bus32, i);
      pat1[i] := base;
      pat2[i] := base ^ INVERT_MASK[imaski];
    }
    assert pat1[..] == pat1[..128] && pat2[..] == pat2[..128];
  }

  function PatPlan(c: Config, pat: seq<bv32>): seq<Probe>
    requires |pat| == 128
  {
    seq(WordsIn(c.size), w requires 0 <= w =>
        Probe(c.start + 4 * w, Number(pat[w % 128] & c.qmask), c.start + 4 * w))
  }

  // ----- memtest_lfsr

  function LfsrPlan(c: Config, seed: bv32): seq<Probe> {
    seq(WordsIn(c.size), w requires 0 <= w => LfsrProbe(c, Run(seed, w + 1), w))
  }

  function LfsrProbe(c: Config, randval: bv32, w: nat): Probe {
    Probe(c.start + 4 * w, Number(randval & c.qmask), c.start + 4 * w)
  }

  lemma LfsrNext(c: Config, seed: bv32, w: nat)
    requires w < WordsIn(c.size)
    ensures LfsrPlan(c, seed)[..w + 1] == LfsrPlan(c, seed)[..w] + [LfsrProbe(c, Run(seed, w + 1), w)]
  {
  }

  /** The generator loop; the write pass and the read pass both run it from the same seed. */
  method Generate(c: Config, seed: bv32) returns (plan: seq<Probe>)
    ensures plan == LfsrPlan(c, seed)
  {
    plan := [];
    var randval := seed;
    for w := 0 to WordsIn(c.size)
      invariant randval == Run(seed, w)
      invariant plan == LfsrPlan(c, seed)[..w]
    {
      randval := Ylfsr(randval);
      plan := plan + [LfsrProbe(c, randval, w)];
      LfsrNext(c, seed, w);
    }
  }

  // ----- the specialised tests against the generic one

  /** The same addresses and the same expected values. */
  ghost predicate SameWords(p: seq<Probe>, q: seq<Probe>) {
    |p| == |q| && forall w :: 0 <= w < |p| ==> p[w].addr == q[w].addr && p[w].ref == q[w].ref
  }

  lemma FullMask(x: bv32)
    ensures x & 0xFFFF_FFFF == x
  {
  }

  lemma Parity(w: nat)
    ensures w % 4 % 2 == w % 2 && w % 4 < 4
  {
    var r := w % 4;
    DivMod(2 * (w / 4) + r / 2, 2, r % 2);
  }

  lemma Argument0(c: Config, mode: nat)
    requires 1 <= mode <= 8
    ensures SimpleArgs(mode, true)[0] == GenericRef(c, mode, 0)
  {
  }

  lemma Argument1(c: Config, mode: nat)
    requires 1 <= mode <= 8
    ensures SimpleArgs(mode, true)[1] == GenericRef(c, mode, 1)
  {
  }

  lemma Argument2(c: Config, mode: nat)
    requires 1 <= mode <= 8
    ensures SimpleArgs(mode, true)[2] == GenericRef(c, mode, 2)
  {
  }

  lemma Argument3(c: Config, mode: nat)
    requires 1 <= mode <= 8
    ensures SimpleArgs(mode, true)[3] == GenericRef(c, mode, 3)
  {
  }

  lemma Arguments(c: Config, mode: nat, k: nat)
    requires 1 <= mode <= 8 && k < 4
    ensures SimpleArgs(mode, true)[k] == GenericRef(c, mode, k)
  {
    if k == 0 {
      Argument0(c, mode);
    } else if k == 1 {
      Argument1(c, mode);
    } else if k == 2 {
      Argument2(c, mode);
    } else {
      Argument3(c, mode);
    }
  }

  lemma ByParity(c: Config, mode: nat, v: nat, w: nat)
    requires 1 <= mode <= 8 && v % 2 == w % 2
    ensures GenericRef(c, mode, v) == GenericRef(c, mode, w)
  {
  }

  lemma SimpleRef(c: Config, mode: nat, w: nat)
    requires 1 <= mode <= 8
    ensures SimpleArgs(mode, true)[w % 4] == GenericRef(c, mode, w)
  {
    Parity(w);
    Arguments(c, mode, w % 4);
    ByParity(c, mode, w, w % 4);
  }

  /** How far memtest_simple reaches: exactly as far as memtest unless the size leaves a
      last group that is only partly inside the range. */
  lemma SameReach(size: int)
    ensures 4 * GroupsIn(size) == WordsIn(size) <==> size <= 0 || size % 16 == 0 || size % 16 >= 13
  {
  }

  /** memtest_simple as called for modes 1 to 8 uses the words of memtest for that mode,
      exactly when both cover the same number of words. */
  lemma SimpleIsGeneric(c: Config, mode: nat)
    requires 1 <= mode <= 8 && c.bus32 && c.qmask == 0xFFFF_FFFF
    ensures SameWords(SimplePlan(c, SimpleArgs(mode, true)), GenericPlan(c, mode)) <==>
            c.size <= 0 || c.size % 16 == 0 || c.size % 16 >= 13
  {
    SameReach(c.size);
    var p, q := SimplePlan(c, SimpleArgs(mode, true)), GenericPlan(c, mode);
    if |p| == |q| {
      forall w | 0 <= w < |p| ensures p[w].addr == q[w].addr && p[w].ref == q[w].ref {
        SimpleRef(c, mode, w);
        FullMask(SimpleArgs(mode, true)[w % 4]);
      }
    }
  }

  lemma TableRef(c: Config, mode: nat, w: nat)
    requires 9 <= mode <= 10
    ensures TableEntry(true, mode == 10, w % 128) == GenericRef(c, mode, w)
  {
    Mod128(w);
  }

  lemma Mod128(w: nat)
    ensures w % 128 % 16 == w % 16 && w % 128 / 16 % 8 == w / 16 % 8
  {
    var q, r := w / 128, w % 128;
    assert w == 16 * (8 * q) + r;
    assert w / 16 == 8 * q + r / 16;
  }

  /** memtest_pat128 on the tables of update_patterns uses the words of memtest for modes 9
      and 10, at every offset and for every size. */
  lemma TableIsGeneric(c: Config, mode: nat)
    requires 9 <= mode <= 10 && c.qmask == 0xFFFF_FFFF
    ensures PatPlan(c, Table(true, mode == 10)) == GenericPlan(c, mode)
  {
    var p, q := PatPlan(c, Table(true, mode == 10)), GenericPlan(c, mode);
    forall w | 0 <= w < |p| ensures p[w] == q[w] {
      TableRef(c, mode, w);
      FullMask(TableEntry(true, mode == 10, w % 128));
    }
  }

  lemma AddressWord(a: int, x: bv32)
    requires x == ToWord(a) & 0xFFFF_FFFF
    ensures Number(x) == a % 0x1_0000_0000
  {
    FullMask(ToWord(a));
    NumberOfWord(a);
  }

  /** Test 0 expects at every word its own address, modulo 2^32 and under the mask of the bus. */
  lemma AddressTest(c: Config, w: nat)
    requires w < WordsIn(c.size) && c.qmask == 0xFFFF_FFFF
    ensures GenericPlan(c, 0)[w].addr == c.start + 4 * w
    ensures GenericPlan(c, 0)[w].ref == (c.start + 4 * w) % 0x1_0000_0000
  {
    AddressRef(c, w);
    AddressWord(c.start + 4 * w, GenericRef(c, 0, w));
  }

  lemma AddressRef(c: Config, w: nat)
    ensures GenericRef(c, 0, w) == ToWord(c.start + 4 * w) & c.qmask
  {
  }

  /** So no two words of a range below 4 gigabytes expect the same. */
  lemma AddressesDiffer(c: Config, w: nat, w': nat)
    requires w < w' < WordsIn(c.size) && c.size <= 0x1_0000_0000 && c.qmask == 0xFFFF_FFFF
    ensures GenericPlan(c, 0)[w].ref != GenericPlan(c, 0)[w'].ref
  {
    AddressTest(c, w);
    AddressTest(c, w');
    RemaindersDiffer(c.start + 4 * w, c.start + 4 * w');
  }

  lemma RemaindersDiffer(a: int, b: int)
    requires a < b < a + 0x1_0000_0000
    ensures a % 0x1_0000_0000 != b % 0x1_0000_0000
  {
  }

  /** memtest_lfsr with its seed unchanged uses the words of memtest for the modes from 11 on. */
  lemma LfsrIsGeneric(c: Config, mode: nat)
    requires mode >= 11 && c.qmask == 0xFFFF_FFFF
    ensures LfsrPlan(c, Seed(c.loop, mode, 0)) == GenericPlan(c, mode)
  {
    var p, q := LfsrPlan(c, Seed(c.loop, mode, 0)), GenericPlan(c, mode);
    forall w | 0 <= w < |p| ensures p[w] == q[w] {
      RandomRef(c, mode, w);
      FullProbe(c, Run(Seed(c.loop, mode, 0), w + 1), w);
    }
  }

  lemma RandomRef(c: Config, mode: nat, w: nat)
    requires mode >= 11
    ensures GenericRef(c, mode, w) == Run(Seed(c.loop, mode, 0), w + 1)
  {
  }

  lemma FullProbe(c: Config, x: bv32, w: nat)
    requires c.qmask == 0xFFFF_FFFF
    ensures LfsrProbe(c, x, w) == Probe(c.start + 4 * w, Number(x), c.start + 4 * w)
  {
    FullMask(x);
  }

  // ----- a 16-bit bus, on which a word is two transfers, low half first

  function Half(word: bv32, h: nat): bv32
    requires h < 2
  {
    if h == 0 then word & 0xFFFF else word >> 16
  }

  lemma OneArgument(mode: nat, k: nat)
    requires 1 <= mode <= 8 && k < 4
    ensures SimpleArgs(mode, false)[k] == SimpleArgs(mode, false)[0]
  {
  }

  lemma LowHalf(c: Config, mode: nat, arg: bv32, ref: bv32)
    requires 1 <= mode <= 8 && arg == SimpleArgs(mode, false)[0] && ref == GenericRef(c, mode, 0)
    ensures Half(arg, 0) == ref & 0xFFFF
  {
  }

  lemma HighHalf(c: Config, mode: nat, arg: bv32, ref: bv32)
    requires 1 <= mode <= 8 && arg == SimpleArgs(mode, false)[0] && ref == GenericRef(c, mode, 1)
    ensures Half(arg, 1) == ref & 0xFFFF
  {
  }

  lemma Halves(c: Config, mode: nat, k: nat, h: nat, ref: bv32)
    requires 1 <= mode <= 8 && k < 4 && h < 2 && ref == GenericRef(c, mode, h)
    ensures Half(SimpleArgs(mode, false)[k], h) == ref & 0xFFFF
  {
    var arg := SimpleArgs(mode, false)[k];
    assert arg == SimpleArgs(mode, false)[0] by { OneArgument(mode, k); }
    if h == 0 {
      LowHalf(c, mode, arg, ref);
    } else {
      HighHalf(c, mode, arg, ref);
    }
  }

  /** In modes 1 to 8 the transfers of the 16-bit words alternate as the 32-bit transfers of
      memtest do: transfer t carries the low half of memtest's word t. */
  lemma NarrowSimple(c: Config, mode: nat, t: nat)
    requires 1 <= mode <= 8
    ensures Half(SimpleArgs(mode, false)[t / 2 % 4], t % 2) == GenericRef(c, mode, t) & 0xFFFF
  {
    NarrowAt(c, mode, t, t / 2 % 4, t % 2);
  }

  lemma NarrowAt(c: Config, mode: nat, t: nat, k: nat, h: nat)
    requires 1 <= mode <= 8 && k < 4 && h < 2 && t % 2 == h % 2
    ensures Half(SimpleArgs(mode, false)[k], h) == GenericRef(c, mode, t) & 0xFFFF
  {
    var ref := GenericRef(c, mode, t);
    assert ref == GenericRef(c, mode, h) by { ByParity(c, mode, t, h); }
    Halves(c, mode, k, h, ref);
  }

  lemma NarrowEntry(k: nat, h: nat, i: nat)
    requires k < 16 && h < 2 && i == (2 * k + h) % 16
    ensures Half(PATTERN1_16BIT[k], h) == PATTERN1[i] & 0xFFFF
  {
    if k < 2 {
      NarrowEntry0(k, h);
    } else if k < 4 {
      NarrowEntry2(k, h);
    } else if k < 6 {
      NarrowEntry4(k, h);
    } else if k < 8 {
      NarrowEntry6(k, h);
    } else if k < 10 {
      NarrowEntry8(k, h);
    } else if k < 12 {
      NarrowEntry10(k, h);
    } else if k < 14 {
      NarrowEntry12(k, h);
    } else {
      NarrowEntry14(k, h);
    }
  }

  lemma NarrowEntry0(k: nat, h: nat)
    requires 0 <= k < 2 && h < 2
    ensures Half(PATTERN1_16BIT[k], h) == PATTERN1[(2 * k + h) % 16] & 0xFFFF
  {
  }

  lemma NarrowEntry2(k: nat, h: nat)
    requires 2 <= k < 4 && h < 2
    ensures Half(PATTERN1_16BIT[k], h) == PATTERN1[(2 * k + h) % 16] & 0xFFFF
  {
  }

  lemma NarrowEntry4(k: nat, h: nat)
    requires 4 <= k < 6 && h < 2
    ensures Half(PATTERN1_16BIT[k], h) == PATTERN1[(2 * k + h) % 16] & 0xFFFF
  {
  }

  lemma NarrowEntry6(k: nat, h: nat)
    requires 6 <= k < 8 && h < 2
    ensures Half(PATTERN1_16BIT[k], h) == PATTERN1[(2 * k + h) % 16] & 0xFFFF
  {
  }

  lemma NarrowEntry8(k: nat, h: nat)
    requires 8 <= k < 10 && h < 2
    ensures Half(PATTERN1_16BIT[k], h) == PATTERN1[(2 * k + h) % 16] & 0xFFFF
  {
  }

  lemma NarrowEntry10(k: nat, h: nat)
    requires 10 <= k < 12 && h < 2
    ensures Half(PATTERN1_16BIT[k], h) == PATTERN1[(2 * k + h) % 16] & 0xFFFF
  {
  }

  lemma NarrowEntry12(k: nat, h: nat)
    requires 12 <= k < 14 && h < 2
    ensures Half(PATTERN1_16BIT[k], h) == PATTERN1[(2 * k + h) % 16] & 0xFFFF
  {
  }

  lemma NarrowEntry14(k: nat, h: nat)
    requires 14 <= k < 16 && h < 2
    ensures Half(PATTERN1_16BIT[k], h) == PATTERN1[(2 * k + h) % 16] & 0xFFFF
  {
  }

  lemma TransferIndex(t: nat)
    ensures (2 * (t / 2 % 16) + t % 2) % 16 == t % 16
  {
  }

  /** The same for the table of modes 9 and 10: transfer t carries the low half of the pattern
      for word t. */
  lemma NarrowTable(t: nat)
    ensures Half(Base(false, t / 2), t % 2) == PATTERN1[t % 16] & 0xFFFF
  {
    TransferIndex(t);
    NarrowEntry(t / 2 % 16, t % 2, t % 16);
  }

  /** The address memtest_simple records is never the address of the word in error. */
  lemma SimpleRecordsWrongAddress(c: Config, d: seq<bv32>, w: nat)
    requires |d| == 4 && w < |SimplePlan(c, d)|
    ensures SimplePlan(c, d)[w].recorded == SimplePlan(c, d)[w].addr + 4 - 3 * (w % 4)
    ensures SimplePlan(c, d)[w].recorded != SimplePlan(c, d)[w].addr
  {
  }
}
