/** The incremental QSPI flash update (ProgramFlash) on NOR flash: erasing sets the bytes of
    a sector to 0xff and writing can only clear bits. */
module Flash {
  import opened Arithmetic
  import opened ByteOrder

  const ERASED: Byte := 0xff

  /** Bitwise AND of the low `bits` bits. */
  function AndBits(a: nat, b: nat, bits: nat): nat {
    if bits == 0 then 0 else a % 2 * (b % 2) + 2 * AndBits(a / 2, b / 2, bits - 1)
  }

  lemma {:induction false} AndBitsBound(a: nat, b: nat, bits: nat)
    ensures AndBits(a, b, bits) < Pow2(bits)
  {
    if bits > 0 {
      AndBitsBound(a / 2, b / 2, bits - 1);
    }
  }

  lemma Pow2Byte()
    ensures Pow2(8) == 256
  {
  }

  /** What a flash cell holds after `b` is written over `a`. */
  function And(a: Byte, b: Byte): Byte {
    AndBitsBound(a, b, 8);
    Pow2Byte();
    AndBits(a, b, 8)
  }

  lemma {:induction false} AndOnes(b: nat, bits: nat)
    requires b < Pow2(bits)
    ensures AndBits(Pow2(bits) - 1, b, bits) == b
  {
    if bits > 0 {
      AndOnes(b / 2, bits - 1);
    }
  }

  lemma AndErased(b: Byte)
    ensures And(ERASED, b) == b
  {
    Pow2Byte();
    AndOnes(b, 8);
  }

  /** An open MTD flash partition with its file offset; `erasures` logs the erased sectors. */
  class Device {
    var bytes: seq<Byte>
    var pos: nat
    const eraseSize: nat
    ghost var erasures: seq<nat>

    ghost predicate Valid()
      reads this
    {
      eraseSize > 0 && Aligned(eraseSize, |bytes|)
    }

    constructor (contents: seq<Byte>, eraseSize: nat)
      requires eraseSize > 0 && Aligned(eraseSize, |contents|)
      ensures Valid() && bytes == contents && pos == 0 && this.eraseSize == eraseSize && erasures == []
    {
      bytes, pos, this.eraseSize, erasures := contents, 0, eraseSize, [];
    }

    method Read(n: nat) returns (buf: seq<Byte>)
      requires pos + n <= |bytes|
      modifies this`pos
      ensures buf == bytes[old(pos)..old(pos) + n] && pos == old(pos) + n
    {
      buf := bytes[pos..pos + n];
      pos := pos + n;
    }

    method SeekBack(n: nat)
      requires n <= pos
      modifies this`pos
      ensures pos == old(pos) - n
    {
      pos := pos - n;
    }

    method Erase(start: nat)
      requires Valid() && start + eraseSize <= |bytes|
      modifies this`bytes, this`erasures
      ensures |bytes| == |old(bytes)| && erasures == old(erasures) + [start]
      ensures forall i :: 0 <= i < |bytes| ==>
                bytes[i] == if start <= i < start + eraseSize then ERASED else old(bytes)[i]
    {
      var b := bytes;
      bytes := seq(|b|, i requires 0 <= i < |b| => if start <= i < start + eraseSize then ERASED else b[i]);
      erasures := erasures + [start];
    }

    /** Programming: each bit of the result is the AND of what is there and what is written. */
    method Write(buf: seq<Byte>)
      requires pos + |buf| <= |bytes|
      modifies this`bytes, this`pos
      ensures |bytes| == |old(bytes)| && pos == old(pos) + |buf|
      ensures forall i :: 0 <= i < |bytes| ==>
                bytes[i] == if old(pos) <= i < old(pos) + |buf| then And(old(bytes)[i], buf[i - old(pos)])
                            else old(bytes)[i]
    {
      var b, p := bytes, pos;
      bytes := seq(|b|, i requires 0 <= i < |b| => if p <= i < p + |buf| then And(b[i], buf[i - p]) else b[i]);
      pos := pos + |buf|;
    }
  }

  // ----- sectors, by counting up in steps of the erase size

  /** `lo` is a multiple of the erase size. */
  ghost predicate Aligned(es: nat, lo: nat) {
    lo == 0 || (0 < es <= lo && Aligned(es, lo - es))
  }

  /** The start of the sector that holds byte `i`. */
  function SectorStart(es: nat, i: nat): nat
    requires es > 0
  {
    if i < es then 0 else es + SectorStart(es, i - es)
  }

  /** The number of sectors that hold `size` bytes, and where the last of them ends. */
  function Sectors(es: nat, size: int): nat
    requires es > 0
    decreases Min(0, size), size
  {
    if size <= 0 then 0 else 1 + Sectors(es, size - es)
  }

  function RoundUp(es: nat, size: int): nat
    requires es > 0
    decreases Min(0, size), size
  {
    if size <= 0 then 0 else es + RoundUp(es, size - es)
  }

  lemma {:induction false} StartOf(es: nat, lo: nat, i: nat)
    requires es > 0 && Aligned(es, lo) && lo <= i < lo + es
    ensures SectorStart(es, i) == lo
    decreases lo
  {
    if lo > 0 {
      StartOf(es, lo - es, i - es);
    }
  }

  lemma {:induction false} StartFacts(es: nat, i: nat)
    requires es > 0
    ensures Aligned(es, SectorStart(es, i)) && SectorStart(es, i) <= i < SectorStart(es, i) + es
  {
    if i >= es {
      StartFacts(es, i - es);
    }
  }

  lemma {:induction false} NextAligned(es: nat, lo: nat, hi: nat)
    requires es > 0 && Aligned(es, lo) && Aligned(es, hi) && lo < hi
    ensures lo + es <= hi
    decreases lo
  {
    if lo > 0 {
      NextAligned(es, lo - es, hi - es);
    }
  }

  /** `n` sectors end at `lo`, counting towards a file of `size` bytes. */
  ghost predicate Counted(es: nat, size: nat, lo: nat, n: nat)
    requires es > 0
  {
    n + Sectors(es, size - lo) == Sectors(es, size) && lo + RoundUp(es, size - lo) == RoundUp(es, size)
  }

  lemma CountedNext(es: nat, size: nat, lo: nat, n: nat)
    requires es > 0 && lo < size && Counted(es, size, lo, n)
    ensures Counted(es, size, lo + es, n + 1)
  {
  }

  // ----- the specification

  /** The sector at `lo` covers file bytes that the flash does not have. */
  predicate Differs(file: seq<Byte>, flash: seq<Byte>, es: nat, lo: nat)
    requires |file| <= |flash|
  {
    lo < |file| && var hi := Min(|file|, lo + es); file[lo..hi] != flash[lo..hi]
  }

  /** The byte at `i` after the update. */
  function Target(file: seq<Byte>, flash: seq<Byte>, es: nat, i: nat): Byte
    requires es > 0 && |file| <= |flash| && i < |flash|
  {
    if !Differs(file, flash, es, SectorStart(es, i)) then flash[i]
    else if i < |file| then file[i]
    else ERASED
  }

  function Programmed(file: seq<Byte>, flash: seq<Byte>, es: nat): (r: seq<Byte>)
    requires es > 0 && |file| <= |flash|
    ensures |r| == |flash|
  {
    seq(|flash|, i requires 0 <= i < |flash| => Target(file, flash, es, i))
  }

  /** The starts of the differing sectors below `end`. */
  ghost function DiffStarts(file: seq<Byte>, flash: seq<Byte>, es: nat, end: nat): seq<nat>
    requires |file| <= |flash| && es > 0 && Aligned(es, end)
  {
    if end == 0 then []
    else DiffStarts(file, flash, es, end - es) + if Differs(file, flash, es, end - es) then [end - es] else []
  }

  // ----- the update loop

  /** The flash after all sectors below `end` have been handled. */
  ghost predicate HandledTo(file: seq<Byte>, before: seq<Byte>, flash: seq<Byte>, es: nat, end: nat)
    requires es > 0 && |file| <= |before|
  {
    && |flash| == |before|
    && (forall i :: 0 <= i < |flash| && i < end ==> flash[i] == Target(file, before, es, i))
    && (forall i :: end <= i < |flash| ==> flash[i] == before[i])
  }

  /** What one pass of the loop does to the sector at `lo`. */
  ghost predicate Rewritten(file: seq<Byte>, flash: seq<Byte>, flash': seq<Byte>, es: nat, lo: nat)
    requires |file| <= |flash| && lo < |file|
  {
    var hi := Min(|file|, lo + es);
    && |flash'| == |flash|
    && if !Differs(file, flash, es, lo) then flash' == flash
       else forall i :: 0 <= i < |flash| ==>
         flash'[i] == if lo <= i < hi then file[i] else if lo <= i < lo + es then ERASED else flash[i]
  }

  lemma DiffersBefore(file: seq<Byte>, before: seq<Byte>, flash: seq<Byte>, es: nat, lo: nat)
    requires es > 0 && |file| <= |before| && lo < |file|
    requires HandledTo(file, before, flash, es, lo)
    ensures Differs(file, before, es, lo) == Differs(file, flash, es, lo)
  {
    var hi := Min(|file|, lo + es);
    assert flash[lo..hi] == before[lo..hi];
  }

  lemma TargetInSector(file: seq<Byte>, before: seq<Byte>, es: nat, lo: nat, i: nat)
    requires es > 0 && |file| <= |before| && Aligned(es, lo) && lo <= i < lo + es && i < |before|
    ensures Target(file, before, es, i) ==
            if !Differs(file, before, es, lo) then before[i] else if i < |file| then file[i] else ERASED
  {
    StartOf(es, lo, i);
  }

  lemma HandledNext(file: seq<Byte>, before: seq<Byte>, flash: seq<Byte>, flash': seq<Byte>, es: nat, lo: nat)
    requires es > 0 && |file| <= |before| && lo < |file| && Aligned(es, lo)
    requires HandledTo(file, before, flash, es, lo) && Rewritten(file, flash, flash', es, lo)
    ensures HandledTo(file, before, flash', es, lo + es)
    ensures Differs(file, before, es, lo) == Differs(file, flash, es, lo)
  {
    DiffersBefore(file, before, flash, es, lo);
    forall i | lo <= i < |flash| && i < lo + es
      ensures flash'[i] == Target(file, before, es, i)
    {
      TargetInSector(file, before, es, lo, i);
    }
  }

  lemma Finished(file: seq<Byte>, before: seq<Byte>, flash: seq<Byte>, es: nat, end: nat)
    requires es > 0 && |file| <= |before| && |file| <= end && Aligned(es, end)
    requires HandledTo(file, before, flash, es, end)
    ensures flash == Programmed(file, before, es)
  {
    forall i | end <= i < |flash| ensures SectorStart(es, i) >= |file| {
      StartFacts(es, i);
      if SectorStart(es, i) < end {
        NextAligned(es, SectorStart(es, i), end);
      }
    }
  }

  /** ProgramFlash. The three flags say whether the file and the device open and the
      buffers can be allocated; I/O calls are taken to transfer in full. */
  method ProgramFlash(file: seq<Byte>, dev: Device, fileOpens: bool, devOpens: bool, memory: bool)
    returns (ok: bool, numSame: nat, numDiff: nat)
    requires dev.Valid() && dev.pos == 0 && |file| <= |dev.bytes|
    modifies dev
    ensures dev.Valid() && (ok <==> fileOpens && devOpens && memory)
    ensures !ok ==> dev.bytes == old(dev.bytes) && dev.erasures == old(dev.erasures)
    ensures ok ==> dev.bytes == Programmed(file, old(dev.bytes), dev.eraseSize)
    ensures ok ==> numSame + numDiff == Sectors(dev.eraseSize, |file|)
    ensures ok ==> Aligned(dev.eraseSize, RoundUp(dev.eraseSize, |file|)) &&
                   dev.erasures == old(dev.erasures) +
                     DiffStarts(file, old(dev.bytes), dev.eraseSize, RoundUp(dev.eraseSize, |file|))
    ensures ok ==> numDiff == |dev.erasures| - |old(dev.erasures)|
  {
    ok, numSame, numDiff := false, 0, 0;
    if !fileOpens || !devOpens || !memory { return; }
    numSame, numDiff := UpdateSectors(file, dev);
    ok := true;
  }

  lemma DiffStartsNext(file: seq<Byte>, flash: seq<Byte>, es: nat, lo: nat)
    requires |file| <= |flash| && es > 0 && Aligned(es, lo)
    ensures Aligned(es, lo + es)
    ensures DiffStarts(file, flash, es, lo + es) ==
            DiffStarts(file, flash, es, lo) + if Differs(file, flash, es, lo) then [lo] else []
  {
  }

  lemma Concatenation(log: seq<nat>, starts: seq<nat>, lo: nat)
    ensures log + starts + [lo] == log + (starts + [lo]) && starts + [] == starts
  {
  }

  /** All sectors below `lo` are handled, counted and, where they differed, erased. */
  ghost predicate Progress(file: seq<Byte>, before: seq<Byte>, flash: seq<Byte>, es: nat, lo: nat,
                           log: seq<nat>, erasures: seq<nat>, numSame: nat, numDiff: nat)
    requires es > 0 && |file| <= |before|
  {
    && Aligned(es, lo) && Counted(es, |file|, lo, numSame + numDiff) && HandledTo(file, before, flash, es, lo)
    && erasures == log + DiffStarts(file, before, es, lo) && numDiff == |DiffStarts(file, before, es, lo)|
  }

  lemma ProgressNext(file: seq<Byte>, before: seq<Byte>, flash: seq<Byte>, flash': seq<Byte>, es: nat, lo: nat,
                     log: seq<nat>, erasures: seq<nat>, erasures': seq<nat>,
                     numSame: nat, numDiff: nat, numSame': nat, numDiff': nat)
    requires es > 0 && lo < |file| <= |before|
    requires Progress(file, before, flash, es, lo, log, erasures, numSame, numDiff)
    requires HandledTo(file, before, flash', es, lo + es)
    requires var diff := Differs(file, before, es, lo);
             && numSame' == (if diff then numSame else numSame + 1)
             && numDiff' == (if diff then numDiff + 1 else numDiff)
             && erasures' == (if diff then erasures + [lo] else erasures)
    ensures Progress(file, before, flash', es, lo + es, log, erasures', numSame', numDiff')
  {
    CountedNext(es, |file|, lo, numSame + numDiff);
    DiffStartsNext(file, before, es, lo);
    Concatenation(log, DiffStarts(file, before, es, lo), lo);
  }

  /** The loop over the sectors. */
  method UpdateSectors(file: seq<Byte>, dev: Device) returns (numSame: nat, numDiff: nat)
    requires dev.Valid() && dev.pos == 0 && |file| <= |dev.bytes|
    modifies dev
    ensures dev.Valid() && dev.bytes == Programmed(file, old(dev.bytes), dev.eraseSize)
    ensures numSame + numDiff == Sectors(dev.eraseSize, |file|)
    ensures Aligned(dev.eraseSize, RoundUp(dev.eraseSize, |file|))
    ensures var starts := DiffStarts(file, old(dev.bytes), dev.eraseSize, RoundUp(dev.eraseSize, |file|));
            dev.erasures == old(dev.erasures) + starts && numDiff == |starts|
  {
    numSame, numDiff := 0, 0;
    var es, nBytes, filePos := dev.eraseSize, 0, 0;
    ghost var before, log := dev.bytes, dev.erasures;
    while nBytes < |file|
      invariant nBytes < |file| ==> filePos == nBytes && dev.pos == nBytes
      invariant Progress(file, before, dev.bytes, es, nBytes, log, dev.erasures, numSame, numDiff)
      decreases |file| - nBytes
    {
      ghost var flash, erasures, same, diff := dev.bytes, dev.erasures, numSame, numDiff;
      numSame, numDiff, filePos := OneSector(file, dev, nBytes, filePos, numSame, numDiff, before);
      ProgressNext(file, before, flash, dev.bytes, es, nBytes, log, erasures, dev.erasures,
                   same, diff, numSame, numDiff);
      nBytes := nBytes + es;
    }
    Finished(file, before, dev.bytes, es, nBytes);
  }

  /** One pass through the update loop: the sector that starts at `nBytes`. */
  method OneSector(file: seq<Byte>, dev: Device, nBytes: nat, filePos0: nat, same0: nat, diff0: nat,
                   ghost before: seq<Byte>)
    returns (numSame: nat, numDiff: nat, filePos: nat)
    requires dev.Valid() && filePos0 == dev.pos == nBytes < |file| <= |before|
    requires Aligned(dev.eraseSize, nBytes) && HandledTo(file, before, dev.bytes, dev.eraseSize, nBytes)
    modifies dev
    ensures HandledTo(file, before, dev.bytes, dev.eraseSize, nBytes + dev.eraseSize)
    ensures nBytes + dev.eraseSize < |file| ==> dev.pos == nBytes + dev.eraseSize == filePos
    ensures var diff := Differs(file, before, dev.eraseSize, nBytes);
            && numSame == (if diff then same0 else same0 + 1)
            && numDiff == (if diff then diff0 + 1 else diff0)
            && dev.erasures == (if diff then old(dev.erasures) + [nBytes] else old(dev.erasures))
  {
    NextAligned(dev.eraseSize, nBytes, |dev.bytes|);
    ghost var flash := dev.bytes;
    numSame, numDiff, filePos := CompareAndRewrite(file, dev, nBytes, filePos0, same0, diff0);
    HandledNext(file, before, flash, dev.bytes, dev.eraseSize, nBytes);
  }

  method CompareAndRewrite(file: seq<Byte>, dev: Device, nBytes: nat, filePos0: nat, same0: nat, diff0: nat)
    returns (numSame: nat, numDiff: nat, filePos: nat)
    requires dev.Valid() && filePos0 == dev.pos == nBytes < |file| <= |dev.bytes|
    requires nBytes + dev.eraseSize <= |dev.bytes|
    modifies dev
    ensures Rewritten(file, old(dev.bytes), dev.bytes, dev.eraseSize, nBytes)
    ensures nBytes + dev.eraseSize < |file| ==> dev.pos == nBytes + dev.eraseSize == filePos
    ensures var diff := Differs(file, old(dev.bytes), dev.eraseSize, nBytes);
            && numSame == (if diff then same0 else same0 + 1)
            && numDiff == (if diff then diff0 + 1 else diff0)
            && dev.erasures == (if diff then old(dev.erasures) + [nBytes] else old(dev.erasures))
  {
    numSame, numDiff := same0, diff0;
    var bytesLeft := |file| - nBytes;
    var nb := if bytesLeft < dev.eraseSize then bytesLeft else dev.eraseSize;
    var fileBuf := file[filePos0..filePos0 + nb];
    filePos := filePos0 + nb;
    var devBuf := dev.Read(nb);
    if fileBuf == devBuf {
      numSame := numSame + 1;
    } else {
      numDiff := numDiff + 1;
      Rewrite(dev, nBytes, fileBuf);
    }
  }

  /** Back up, erase the sector and write the new contents. */
  method Rewrite(dev: Device, start: nat, buf: seq<Byte>)
    requires dev.Valid() && dev.pos == start + |buf| && |buf| <= dev.eraseSize && start + dev.eraseSize <= |dev.bytes|
    modifies dev
    ensures dev.pos == old(dev.pos) && dev.erasures == old(dev.erasures) + [start]
    ensures |dev.bytes| == |old(dev.bytes)|
    ensures forall i :: 0 <= i < |dev.bytes| ==>
              dev.bytes[i] == if start <= i < start + |buf| then buf[i - start]
                              else if start <= i < start + dev.eraseSize then ERASED
                              else old(dev.bytes)[i]
  {
    dev.SeekBack(|buf|);
    dev.Erase(start);
    dev.Write(buf);
    forall i | 0 <= i < |buf| ensures dev.bytes[start + i] == buf[i] { AndErased(buf[i]); }
  }

  // ----- what the update achieves

  /** The flash holds the file, sectors that already agreed keep every byte, and the rest
      of a rewritten last sector is erased. */
  lemma Correct(file: seq<Byte>, flash: seq<Byte>, es: nat)
    requires es > 0 && |file| <= |flash|
    ensures Programmed(file, flash, es)[..|file|] == file
    ensures forall i :: 0 <= i < |flash| && !Differs(file, flash, es, SectorStart(es, i)) ==>
              Programmed(file, flash, es)[i] == flash[i]
    ensures forall i :: |file| <= i < |flash| && Differs(file, flash, es, SectorStart(es, i)) ==>
              Programmed(file, flash, es)[i] == ERASED
  {
    var r := Programmed(file, flash, es);
    forall i | 0 <= i < |file| ensures r[i] == file[i] {
      StartFacts(es, i);
      var lo := SectorStart(es, i);
      var hi := Min(|file|, lo + es);
      if !Differs(file, flash, es, lo) {
        assert file[lo..hi][i - lo] == flash[lo..hi][i - lo];
      }
    }
  }

  /** Exactly the sectors whose covered bytes differ are erased, in ascending order. */
  lemma {:induction false} Minimal(file: seq<Byte>, flash: seq<Byte>, es: nat, end: nat, lo: nat)
    requires es > 0 && |file| <= |flash| && Aligned(es, end)
    ensures lo in DiffStarts(file, flash, es, end) <==> lo < end && Aligned(es, lo) && Differs(file, flash, es, lo)
    decreases end
  {
    if end > 0 {
      Minimal(file, flash, es, end - es, lo);
      var before := DiffStarts(file, flash, es, end - es);
      assert lo in before + [end - es] <==> lo in before || lo == end - es;
      if lo < end && Aligned(es, lo) {
        NextAligned(es, lo, end);
      }
    }
  }

  lemma {:induction false} Ascending(file: seq<Byte>, flash: seq<Byte>, es: nat, end: nat)
    requires es > 0 && |file| <= |flash| && Aligned(es, end)
    ensures Increasing(DiffStarts(file, flash, es, end), end)
    decreases end
  {
    if end > 0 {
      Ascending(file, flash, es, end - es);
      var before := DiffStarts(file, flash, es, end - es);
      assert Increasing(before, end);
      assert Increasing(before + [end - es], end);
      assert before + [] == before;
    }
  }

  ghost predicate Increasing(starts: seq<nat>, end: nat) {
    && (forall a :: 0 <= a < |starts| ==> starts[a] < end)
    && (forall a, b :: 0 <= a < b < |starts| ==> starts[a] < starts[b])
  }

  /** A second run finds no sector to rewrite and changes nothing. */
  lemma Idempotent(file: seq<Byte>, flash: seq<Byte>, es: nat, end: nat)
    requires es > 0 && |file| <= |flash| && Aligned(es, end)
    ensures var once := Programmed(file, flash, es);
            DiffStarts(file, once, es, end) == [] && Programmed(file, once, es) == once
  {
    var once := Programmed(file, flash, es);
    Correct(file, flash, es);
    forall lo: nat ensures !Differs(file, once, es, lo) {
      if lo < |file| {
        var hi := Min(|file|, lo + es);
        assert once[lo..hi] == once[..|file|][lo..hi];
      }
    }
    NoStarts(file, once, es, end);
  }

  lemma {:induction false} NoStarts(file: seq<Byte>, flash: seq<Byte>, es: nat, end: nat)
    requires es > 0 && Aligned(es, end)
    requires |file| <= |flash| && forall lo: nat :: !Differs(file, flash, es, lo)
    ensures DiffStarts(file, flash, es, end) == []
    decreases end
  {
    if end > 0 {
      NoStarts(file, flash, es, end - es);
    }
  }

  /** The update run twice on the same device, which is opened afresh each time. */
  method ProgramTwice(file: seq<Byte>, dev: Device) returns (numSame: nat, numDiff: nat)
    requires dev.Valid() && dev.pos == 0 && |file| <= |dev.bytes|
    modifies dev
    ensures dev.bytes == Programmed(file, old(dev.bytes), dev.eraseSize) && dev.bytes[..|file|] == file
    ensures numDiff == 0 && numSame == Sectors(dev.eraseSize, |file|)
    ensures Aligned(dev.eraseSize, RoundUp(dev.eraseSize, |file|)) &&
            dev.erasures == old(dev.erasures) +
              DiffStarts(file, old(dev.bytes), dev.eraseSize, RoundUp(dev.eraseSize, |file|))
  {
    var es := dev.eraseSize;
    ghost var flash := dev.bytes;
    var _, _, _ := ProgramFlash(file, dev, true, true, true);
    Idempotent(file, flash, es, RoundUp(es, |file|));
    Correct(file, flash, es);
    dev.pos := 0;
    var ok;
    ok, numSame, numDiff := ProgramFlash(file, dev, true, true, true);
  }
}
