/** L1DCacheFlush: clean and invalidate the level 1 data cache line by line. The operand of
    the set/way operation has the way in bits 31:30 and the set above the 5 line-offset
    bits (section B4.2.1 of the ARMv7-A/R Architecture Reference Manual, DDI 0406C). */
module CacheFlush {
  import opened Arithmetic

  // ----- the cache size register (section B4.1.19 of the same manual)

  function CacheSize(csid: nat): nat {
    (csid / 0x2000 % 0x200 + 1) * 128
  }

  function NumWays(csid: nat): nat {
    csid % 0x400 / 8 + 1
  }

  function LineSize(csid: nat): nat {
    csid % 8 + 4
  }

  /** Four ways of S sets of 32-byte lines, S a power of two that fits the size field. */
  predicate FourWays(csid: nat, sets: nat) {
    NumWays(csid) == 4 && LineSize(csid) == 5 && csid / 0x2000 % 0x200 + 1 == sets && PowerOfTwo(sets)
  }

  predicate PowerOfTwo(n: nat) {
    n == 1 || n == 2 || n == 4 || n == 8 || n == 16 || n == 32 || n == 64 || n == 128 || n == 256 || n == 512
  }

  /** The C expression Way | Set, for a way number in the top two bits and a set part that
      does not reach them. */
  function Operand(way: nat, setPart: nat): nat
    requires way % 0x4000_0000 == 0 && setPart < 0x4000_0000
  {
    way + setPart
  }

  /** The line that an operand names, in a cache of `sets` sets per way. */
  function WayOf(operand: nat): nat {
    operand / 0x4000_0000
  }

  function SetOf(operand: nat, sets: nat): nat
    requires sets > 0
  {
    operand / 32 % sets
  }

  lemma Geometry(csid: nat, sets: nat)
    requires FourWays(csid, sets)
    ensures Pow2(LineSize(csid)) == 32 && CacheSize(csid) / NumWays(csid) / 32 == sets
  {
    assert Pow2(2) == 4;
  }

  /** The register value for 32 kilobytes in 4 ways of 32-byte lines: 256 sets. */
  lemma ThirtyTwoKilobytes()
    ensures FourWays(0x701f_e019, 256) && CacheSize(0x701f_e019) == 32768
  {
  }

  /** The set part counts on from way to way; modulo the number of sets it is still right. */
  lemma Names(sets: nat, w: nat, s: nat)
    requires PowerOfTwo(sets) && w < 4 && s < sets
    ensures w * sets + s < 0x800
    ensures var operand := Operand(w * 0x4000_0000, 32 * (w * sets + s));
            WayOf(operand) == w && SetOf(operand, sets) == s
  {
    var d := WaySize(sets);
    Multiples(w, 4, sets);
    var operand := w * 0x4000_0000 + 32 * (w * sets + s);
    assert operand / 32 == w * 0x200_0000 + (w * sets + s);
    Spread(w, d, sets, s);
    DivMod(w * d + w, sets, s);
  }

  /** The number of sets divides the weight of the way number in operand / 32. */
  lemma WaySize(sets: nat) returns (d: nat)
    requires PowerOfTwo(sets)
    ensures d * sets == 0x200_0000
  {
    d := 0x200_0000 / sets;
  }

  lemma Spread(w: nat, d: nat, sets: nat, s: nat)
    requires d * sets == 0x200_0000
    ensures w * 0x200_0000 + (w * sets + s) == (w * d + w) * sets + s
  {
    assert w * (d * sets) == w * d * sets;
    assert (w * d + w) * sets == w * d * sets + w * sets;
  }

  /** The operands issued, way by way: every line of the cache is named exactly once, because
      operation s of way w names set s of way w, and there are no others. */
  method L1DCacheFlush(csid: nat, ghost sets: nat) returns (ops: seq<seq<nat>>)
    requires FourWays(csid, sets)
    ensures |ops| == 4
    ensures forall w :: 0 <= w < 4 ==> |ops[w]| == sets
    ensures forall w, s :: 0 <= w < 4 && 0 <= s < sets ==> WayOf(ops[w][s]) == w && SetOf(ops[w][s], sets) == s
    ensures forall w: nat, s: nat :: NamesLine(ops, sets, w, s) <==> w < 4 && s < sets
    ensures forall v, k, v', k' :: 0 <= v < 4 && 0 <= v' < 4 && 0 <= k < sets && 0 <= k' < sets &&
              WayOf(ops[v][k]) == WayOf(ops[v'][k']) && SetOf(ops[v][k], sets) == SetOf(ops[v'][k'], sets)
              ==> v == v' && k == k'
  {
    Geometry(csid, sets);
    var numSet := CacheSize(csid) / NumWays(csid) / Pow2(LineSize(csid));
    var way, setPart := 0, 0;
    ops := [];
    for wayIndex := 0 to NumWays(csid)
      invariant way == wayIndex * 0x4000_0000 && setPart == 32 * (wayIndex * sets)
      invariant |ops| == wayIndex && forall w :: 0 <= w < wayIndex ==> |ops[w]| == sets
      invariant forall w, s :: 0 <= w < wayIndex && 0 <= s < sets ==>
                  WayOf(ops[w][s]) == w && SetOf(ops[w][s], sets) == s
    {
      var row: seq<nat>;
      row, setPart := FlushWay(way, setPart, numSet, wayIndex);
      ops := ops + [row];
      way := way + 0x4000_0000;
      assert (wayIndex + 1) * sets == wayIndex * sets + sets;
    }
    forall w: nat, s: nat ensures NamesLine(ops, sets, w, s) <==> w < 4 && s < sets {
      EachLineOnce(ops, sets, w, s);
    }
    EachLineOnce(ops, sets, 0, 0);
  }

  /** Some operation names set `s` of way `w`. */
  ghost predicate NamesLine(ops: seq<seq<nat>>, sets: nat, w: nat, s: nat)
    requires sets > 0 && |ops| == 4 && forall v :: 0 <= v < 4 ==> |ops[v]| == sets
  {
    exists v, k :: 0 <= v < 4 && 0 <= k < sets && WayOf(ops[v][k]) == w && SetOf(ops[v][k], sets) == s
  }

  /** The inner loop: all sets of one way. */
  method FlushWay(way: nat, setPart0: nat, numSet: nat, ghost w: nat) returns (row: seq<nat>, setPart: nat)
    requires PowerOfTwo(numSet) && w < 4 && way == w * 0x4000_0000 && setPart0 == 32 * (w * numSet)
    ensures |row| == numSet && setPart == 32 * (w * numSet + numSet)
    ensures forall s :: 0 <= s < numSet ==> WayOf(row[s]) == w && SetOf(row[s], numSet) == s
  {
    row, setPart := [], setPart0;
    for setIndex := 0 to numSet
      invariant setPart == 32 * (w * numSet + setIndex) && |row| == setIndex
      invariant forall s :: 0 <= s < setIndex ==> WayOf(row[s]) == w && SetOf(row[s], numSet) == s
    {
      Names(numSet, w, setIndex);
      var c7 := Operand(way, setPart);
      row := row + [c7];
      setPart := setPart + 32;
    }
  }

  /** Every line has one operation, and no operation names a line outside the cache. */
  lemma EachLineOnce(ops: seq<seq<nat>>, sets: nat, w: nat, s: nat)
    requires sets > 0 && |ops| == 4 && forall v :: 0 <= v < 4 ==> |ops[v]| == sets
    requires forall v, k :: 0 <= v < 4 && 0 <= k < sets ==> WayOf(ops[v][k]) == v && SetOf(ops[v][k], sets) == k
    ensures NamesLine(ops, sets, w, s) <==> w < 4 && s < sets
    ensures forall v, k, v', k' :: 0 <= v < 4 && 0 <= v' < 4 && 0 <= k < sets && 0 <= k' < sets &&
              WayOf(ops[v][k]) == WayOf(ops[v'][k']) && SetOf(ops[v][k], sets) == SetOf(ops[v'][k'], sets)
              ==> v == v' && k == k'
  {
    if w < 4 && s < sets {
      assert WayOf(ops[w][s]) == w && SetOf(ops[w][s], sets) == s;
    }
  }
}
