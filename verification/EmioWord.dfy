/** The upper EMIO output register as the memory-mapped drivers write it: a 32-bit word in
    which each line has its own bit. */
module EmioWord {
  import opened Arithmetic
  import opened BitField
  import opened EmioBoard
  import opened Iteration
  import opened WordNumber

  const REQUEST_BUS: bv32 := 0x0001_0000
  const REG_WEN: bv32 := 0x0004_0000
  const BLK_START: bv32 := 0x0008_0000
  const BLK_END: bv32 := 0x0010_0000
  const LSB: bv32 := 0x0080_0000

  // ----- the lines

  /** The word for a 16-bit address with all other lines low: `uint32_t outreg = addr`. */
  function AddrWord(a: Addr): bv32 {
    ToWord(a)
  }

  function AddrOf(r: bv32): Addr {
    AddrMasked(r);
    Number(r & 0xffff)
  }

  lemma AddrMasked(r: bv32)
    ensures Number(r & 0xffff) == Number(r) % 0x1_0000
  {
    Pow32();
    Ones31();
    NumberMasked(r, 16);
  }

  /** What the register puts on the lines. */
  function Decode(r: bv32): Upper {
    Upper(AddrOf(r), r & LSB != 0, r & REQUEST_BUS != 0, r & REG_WEN != 0, r & BLK_START != 0, r & BLK_END != 0)
  }

  /** Which bit of the register drives which line. */
  lemma LinesOfWord(r: bv32)
    ensures var u, n := Decode(r), Number(r);
            && u.addr == n % 0x1_0000 && (u.req <==> n / 0x1_0000 % 2 == 1) && (u.wen <==> n / 0x4_0000 % 2 == 1)
            && (u.blkStart <==> n / 0x8_0000 % 2 == 1) && (u.blkEnd <==> n / 0x10_0000 % 2 == 1)
            && (u.lsb <==> n / 0x80_0000 % 2 == 1)
  {
    AddrMasked(r);
    Masks(r);
    LineOf(r, 16, 0x1_0000);
    LineOf(r, 18, 0x4_0000);
    LineOf(r, 19, 0x8_0000);
    LineOf(r, 20, 0x10_0000);
    LineOf(r, 23, 0x80_0000);
  }

  lemma LineOf(r: bv32, k: nat, p: nat)
    requires (k == 16 && p == 0x1_0000) || (k == 18 && p == 0x4_0000) || (k == 19 && p == 0x8_0000)
             || (k == 20 && p == 0x10_0000) || (k == 23 && p == 0x80_0000)
    ensures Low(Shr(r, k)) <==> Number(r) / p % 2 == 1
  {
    Pow32();
    assert Pow2(17) == 0x2_0000 && Pow2(18) == 0x4_0000 && Pow2(19) == 0x8_0000 && Pow2(20) == 0x10_0000;
    assert Pow2(21) == 0x20_0000 && Pow2(22) == 0x40_0000 && Pow2(23) == 0x80_0000;
    BitAt(r, k);
  }

  /** The masks find the bits that shifts bring down. */
  lemma Masks(r: bv32)
    ensures (r & REQUEST_BUS != 0 <==> Low(Shr(r, 16))) && (r & REG_WEN != 0 <==> Low(Shr(r, 18)))
    ensures (r & BLK_START != 0 <==> Low(Shr(r, 19))) && (r & BLK_END != 0 <==> Low(Shr(r, 20)))
    ensures r & LSB != 0 <==> Low(Shr(r, 23))
  {
    Bit16(r);
    Bit18(r);
    Bit19(r);
    Bit20(r);
    Bit23(r);
  }

  lemma Bit16(r: bv32)
    ensures r & REQUEST_BUS != 0 <==> Low(Shr(r, 16))
  {
    Down16(r);
  }

  lemma Down18(r: bv32)
    ensures Shr(r, 18) == r >> 18
  {
    Down16(r);
    IterAdd(Half, r, 16, 2);
    Down2(r >> 16);
  }

  lemma Bit18(r: bv32)
    ensures r & REG_WEN != 0 <==> Low(Shr(r, 18))
  {
    Down18(r);
  }

  lemma Down19(r: bv32)
    ensures Shr(r, 19) == r >> 19
  {
    Down18(r);
    IterAdd(Half, r, 18, 1);
    Down1(r >> 18);
  }

  lemma Bit19(r: bv32)
    ensures r & BLK_START != 0 <==> Low(Shr(r, 19))
  {
    Down19(r);
  }

  lemma Down20(r: bv32)
    ensures Shr(r, 20) == r >> 20
  {
    Down16(r);
    IterAdd(Half, r, 16, 4);
    Down4(r >> 16);
  }

  lemma Bit20(r: bv32)
    ensures r & BLK_END != 0 <==> Low(Shr(r, 20))
  {
    Down20(r);
  }

  lemma Down22(r: bv32)
    ensures Shr(r, 22) == r >> 22
  {
    Down20(r);
    IterAdd(Half, r, 20, 2);
    Down2(r >> 20);
  }

  lemma Down23(r: bv32)
    ensures Shr(r, 23) == r >> 23
  {
    Down22(r);
    IterAdd(Half, r, 22, 1);
    Down1(r >> 22);
  }

  lemma Bit23(r: bv32)
    ensures r & LSB != 0 <==> Low(Shr(r, 23))
  {
    Down23(r);
  }

  /** The word of an address has nothing above bit 15. */
  lemma AddrLow(a: Addr)
    ensures AddrWord(a) & 0xffff_0000 == 0
  {
    AddrWithin(a);
    NothingAbove(AddrWord(a));
  }

  lemma AddrWithin(a: Addr)
    ensures And(AddrWord(a), 0xffff) == AddrWord(a)
  {
    Pow32();
    Ones31();
    FromBitsSmall(a, 16, WIDTH);
    FromBitsWithin(a, 16);
  }

  lemma NothingAbove(x: bv32)
    requires And(x, 0xffff) == x
    ensures x & 0xffff_0000 == 0
  {
  }

  lemma Split(x: bv32, flags: bv32)
    requires x & 0xffff_0000 == 0 && flags & 0xffff == 0
    ensures (x | flags) & 0xffff == x
    ensures (x | flags) & LSB == flags & LSB && (x | flags) & REQUEST_BUS == flags & REQUEST_BUS
    ensures (x | flags) & REG_WEN == flags & REG_WEN && (x | flags) & BLK_START == flags & BLK_START
    ensures (x | flags) & BLK_END == flags & BLK_END
  {
  }

  lemma AddrNumber(a: Addr)
    ensures Number(AddrWord(a)) == a
  {
    NumberOfSmall(a);
  }

  lemma DecodeParts(x: bv32, flags: bv32, a: Addr)
    requires x & 0xffff_0000 == 0 && flags & 0xffff == 0 && Number(x) == a
    ensures Decode(x | flags) ==
            Upper(a, flags & LSB != 0, flags & REQUEST_BUS != 0, flags & REG_WEN != 0,
                  flags & BLK_START != 0, flags & BLK_END != 0)
  {
    Split(x, flags);
  }

  /** Address and flags do not disturb each other. */
  lemma DecodeWord(a: Addr, flags: bv32)
    requires flags & 0xffff == 0
    ensures Decode(AddrWord(a) | flags) ==
            Upper(a, flags & LSB != 0, flags & REQUEST_BUS != 0, flags & REG_WEN != 0,
                  flags & BLK_START != 0, flags & BLK_END != 0)
  {
    AddrLow(a);
    AddrNumber(a);
    DecodeParts(AddrWord(a), flags, a);
  }

  /** The first register value of a quadlet read, a quadlet write and a block transfer, and
      the one that returns all lines to 0. */
  lemma ReadWord(a: Addr)
    ensures Decode(AddrWord(a) | REQUEST_BUS) == ZERO.(addr := a, req := true)
  {
    DecodeWord(a, REQUEST_BUS);
  }

  lemma WriteWord(a: Addr)
    ensures Decode(AddrWord(a) | REG_WEN | REQUEST_BUS) == ZERO.(addr := a, wen := true, req := true)
  {
    Regroup(AddrWord(a), REG_WEN, REQUEST_BUS);
    DecodeWord(a, REG_WEN | REQUEST_BUS);
  }

  lemma BlockWord(a: Addr)
    ensures Decode(AddrWord(a) | BLK_START | REQUEST_BUS) == BlockLines(a, false, false)
  {
    Regroup(AddrWord(a), BLK_START, REQUEST_BUS);
    DecodeWord(a, BLK_START | REQUEST_BUS);
  }

  lemma Regroup(x: bv32, y: bv32, z: bv32)
    ensures x | y | z == x | (y | z)
  {
  }

  lemma ZeroWord()
    ensures Decode(0) == ZERO
  {
    NoBits(0, WIDTH);
    assert (0 as bv32) & 0xffff == 0;
  }

  /** The mask expressions of the block loops change exactly the lines they are for. */
  lemma SetBlkEnd(r: bv32)
    ensures Decode((r & !BLK_START) | BLK_END) == Decode(r).(blkStart := false, blkEnd := true)
  {
    assert ((r & !BLK_START) | BLK_END) & 0xffff == r & 0xffff;
  }

  lemma SetLsb(r: bv32)
    ensures Decode(r | LSB) == Decode(r).(lsb := true)
  {
    assert (r | LSB) & 0xffff == r & 0xffff;
  }

  lemma ClearLsb(r: bv32)
    ensures Decode(r & !LSB) == Decode(r).(lsb := false)
  {
    assert (r & !LSB) & 0xffff == r & 0xffff;
  }

  /** A register value of a block transfer from `base`. */
  ghost predicate BlockValue(r: bv32, base: Addr, last: bool) {
    Decode(r) == BlockLines(base, Decode(r).lsb, last)
  }

  /** The first register value of a block transfer. */
  method FirstWord(addr: Addr) returns (outreg: bv32)
    ensures BlockValue(outreg, addr, false)
  {
    BlockWord(addr);
    outreg := AddrWord(addr) | BLK_START | REQUEST_BUS;
  }

  /** The register value for one quadlet of a block transfer. */
  method QuadletWord(outreg0: bv32, last: bool, odd: bool) returns (outreg: bv32)
    ensures Decode(outreg) == QuadletLines(Decode(outreg0), last, odd)
  {
    outreg := outreg0;
    if last {
      outreg := EndWord(outreg);
    }
    outreg := LsbWord(outreg, odd);
  }

  function QuadletLines(u: Upper, last: bool, odd: bool): Upper {
    if last then u.(blkStart := false, blkEnd := true, lsb := odd) else u.(lsb := odd)
  }

  method EndWord(outreg0: bv32) returns (outreg: bv32)
    ensures Decode(outreg) == Decode(outreg0).(blkStart := false, blkEnd := true)
  {
    SetBlkEnd(outreg0);
    outreg := outreg0 & !BLK_START;
    outreg := outreg | BLK_END;
  }

  method LsbWord(outreg0: bv32, odd: bool) returns (outreg: bv32)
    ensures Decode(outreg) == Decode(outreg0).(lsb := odd)
  {
    if odd {
      SetLsb(outreg0);
      outreg := outreg0 | LSB;
    } else {
      ClearLsb(outreg0);
      outreg := outreg0 & !LSB;
    }
  }
}
