/** The Linux memory-mapped EMIO driver (EMIO_Interface_Mmap). */
module EmioMmap {
  import opened EmioBoard
  import opened EmioWord
  import opened ByteOrder

  class Driver {
    var board: Board
    var isInput: bool
    const polls: nat  // status reads that fit in the timeout, beyond the first

    /** The shadow `isInput` agrees with the lines, and between calls the upper output
        lines are all 0. This needs nothing from the firmware. */
    ghost predicate Valid()
      reads this
    {
      && board.upper == ZERO
      && (isInput ==> board.dirLower == 0)
      && (!isInput ==> board.dirLower == ALL_LINES && board.enLower == ALL_LINES)
    }

    /** The firmware is idle and always answers before the timeout. */
    ghost predicate InTime()
      reads this
    {
      !board.busy && Quick(board)
    }

    ghost predicate Quick(b: Board) {
      forall k :: b.delay(k) <= polls
    }

    /** The successful part of Init, on lines in any state. */
    constructor (b: Board, polls: nat)
      ensures Valid() && isInput && this.polls == polls
      ensures board == b.(dirLower := 0, upper := ZERO)
    {
      ZeroWord();
      board := b.(dirLower := 0).Drive(Decode(0));
      isInput := true;
      this.polls := polls;
    }

    /** Writes to the upper output register: the request lines of a quadlet read and of a
        quadlet write, and all lines back to 0. */
    method RequestRead(addr: Addr)
      modifies this`board
      ensures board == old(board).Drive(ZERO.(addr := addr, req := true))
    {
      ReadWord(addr);
      board := board.Drive(Decode(AddrWord(addr) | REQUEST_BUS));
    }

    method RequestWrite(addr: Addr)
      modifies this`board
      ensures board == old(board).Drive(ZERO.(addr := addr, wen := true, req := true))
    {
      WriteWord(addr);
      board := board.Drive(Decode(AddrWord(addr) | REG_WEN | REQUEST_BUS));
    }

    method Release()
      modifies this`board
      ensures board == old(board).Drive(ZERO)
    {
      ZeroWord();
      board := board.Drive(Decode(0));
    }

    /** Polls op_done up to the timeout. The source returns true in every case, so the
        error exits behind its callers' tests of the result are dead code. */
    method WaitOpDone()
      modifies this`board
      ensures Polled(old(board), board)
      ensures !old(board).busy ==> board == old(board)
      ensures old(board).busy && !old(board).done && old(board).wait <= polls ==> board == old(board).Complete()
    {
      board := board.Poll();
      var opdone := board.done;
      if !opdone {
        var n := 0;
        while n < polls && !opdone
          invariant n <= polls
          invariant Polled(old(board), board)
          invariant !old(board).busy ==> board == old(board)
          invariant old(board).busy && !old(board).done ==>
              if n < old(board).wait then board == old(board).(wait := old(board).wait - n - 1) && !opdone
              else board == old(board).Complete()
        {
          board := board.Poll();
          opdone := board.done;
          n := n + 1;
        }
      }
    }

    /** The wait for op_done to fall: any status word satisfies the source's test, so one
        poll is all it does. */
    method WaitOpClear()
      modifies this`board
      ensures Polled(old(board), board)
      ensures !old(board).busy ==> board == old(board)
    {
      board := board.Poll();
    }

    method SetInput()
      requires Valid()
      modifies this
      ensures Valid() && isInput && board == old(board).(dirLower := 0)
    {
      if !isInput {
        board := board.(dirLower := 0);
        isInput := true;
      }
    }

    method SetOutput()
      requires Valid()
      modifies this
      ensures Valid() && !isInput && board == old(board).(dirLower := ALL_LINES, enLower := ALL_LINES)
    {
      if isInput {
        board := board.(dirLower := ALL_LINES);
        board := board.(enLower := ALL_LINES);
        isInput := false;
      }
    }

    method ReadQuadlet(addr: Addr) returns (ok: bool, data: Word)
      requires Valid()
      modifies this
      ensures Valid() && ok && SameFirmware(old(board), board)
      ensures board.events == old(board).events + [Event(false, addr, false, false, false, 0)]
      ensures old(InTime()) ==> InTime() && data == old(board).regs(addr) && board.regs == old(board).regs
    {
      SetInput();
      RequestRead(addr);
      WaitOpDone();
      data := board.DataIn();
      Release();
      WaitOpClear();
      ok := true;
    }

    method WriteQuadlet(addr: Addr, data: Word) returns (ok: bool)
      requires Valid()
      modifies this
      ensures Valid() && ok && SameFirmware(old(board), board)
      ensures board.events == old(board).events + [Event(true, addr, false, false, false, data)]
      ensures old(InTime()) ==> InTime() && board.regs == Update(old(board).regs, addr, data)
    {
      SetOutput();
      board := board.(outLower := data);
      RequestWrite(addr);
      WaitOpDone();
      Release();
      WaitOpClear();
      ok := true;
    }

    /** One quadlet of a block transfer: lines 359-372 and 449-464. */
    method BlockQuadlet(outreg0: bv32, last: bool, addr: Addr, ghost b0: Board, ghost base: Addr,
                        ghost n: nat, ghost q: nat)
      returns (outreg: bv32)
      requires BlockValue(outreg0, base, false) && addr == Advance(base, q) && last == (q + 1 == n)
      requires InBlock(b0, board, base, q)
      modifies this`board
      ensures BlockValue(outreg, base, last) && Stepped(b0, old(board), board, base, n, q, old(InTime()))
    {
      outreg := QuadletWord(outreg0, last, addr % 2 == 1);
      BlockStep(b0, board, base, q, last);
      board := board.Drive(Decode(outreg));
      WaitOpDone();
    }

    /** One quadlet of a block read. */
    method ReadOne(outreg0: bv32, last: bool, addr: Addr, ghost b0: Board, ghost base: Addr, ghost n: nat,
                   ghost q: nat, ghost live: bool)
      returns (outreg: bv32, val: Word)
      requires BlockValue(outreg0, base, false) && addr == Advance(base, q) && last == (q + 1 == n)
      requires b0.dirLower == 0 && q < n && ReadSoFar(b0, board, base, n, q, live)
      requires live ==> Quick(b0)
      modifies this`board
      ensures BlockValue(outreg, base, last) && ReadSoFar(b0, board, base, n, q + 1, live)
      ensures live ==> val == b0.regs(Advance(base, q))
    {
      ghost var b := board;
      outreg := BlockQuadlet(outreg0, last, addr, b0, base, n, q);
      val := board.DataIn();
      ReadNext(b0, b, board, base, n, q, live);
    }

    method ReadBlock(addr: Addr, data: array<Word>, nBytes: nat) returns (ok: bool)
      requires Valid() && nBytes < 0x1_0000_0000 && Quads(nBytes) <= data.Length
      modifies this, data
      ensures Valid() && SameFirmware(old(board), board)
      ensures ok <==> old(board).version >= 1
      ensures board.events == old(board).events + if ok then ReadEvents(addr, Quads(nBytes)) else []
      ensures forall k :: (if ok then Quads(nBytes) else 0) <= k < data.Length ==> data[k] == old(data[k])
      ensures old(InTime()) ==> InTime() && board.regs == old(board).regs
      ensures old(InTime()) && ok ==>
                data[..Quads(nBytes)] == Swapped(ReadSeq(old(board).regs, addr, Quads(nBytes)))
    {
      if board.version < 1 { return false; }
      SetInput();
      ReadQuads(addr, data, Quads(nBytes));
      WaitOpClear();
      return true;
    }

    /** The loop of ReadBlock, up to the write that returns all lines to 0. */
    method ReadQuads(addr0: Addr, data: array<Word>, nQuads: nat)
      requires Valid() && isInput && nQuads <= data.Length
      modifies this`board, data
      ensures Valid() && SameFirmware(old(board), board)
      ensures board.events == old(board).events + ReadEvents(addr0, nQuads)
      ensures forall k :: nQuads <= k < data.Length ==> data[k] == old(data[k])
      ensures old(InTime()) ==> !board.busy && board.regs == old(board).regs
      ensures old(InTime()) ==> data[..nQuads] == Swapped(ReadSeq(old(board).regs, addr0, nQuads))
    {
      ReadLoop(addr0, data, nQuads);
      assert ReadSoFar(old(board), board, addr0, nQuads, nQuads, old(InTime()));
      ReadFinish(old(board), board, addr0, nQuads, old(InTime()));
      assert data[..][..nQuads] == data[..nQuads];
      assert forall k :: nQuads <= k < data.Length ==> data[k] == data[..][nQuads..][k - nQuads];
      Release();
    }

    method ReadLoop(addr0: Addr, data: array<Word>, nQuads: nat)
      requires Valid() && isInput && nQuads <= data.Length
      modifies this`board, data
      ensures Midway(Speed(old(InTime())), old(board), board, addr0, nQuads, nQuads, old(data[..]), data[..])
    {
      var addr := addr0;
      var outreg := FirstWord(addr);
      ghost var b0, live, buffer := board, InTime(), data[..];
      MidwayNone(b0, addr0, nQuads, live, buffer);
      for q := 0 to nQuads
        invariant addr == Advance(addr0, q)
        invariant q < nQuads ==> BlockValue(outreg, addr0, false)
        invariant Midway(Speed(live), b0, board, addr0, nQuads, q, buffer, data[..])
      {
        outreg := ReadInto(outreg, q == nQuads - 1, addr, data, q, b0, addr0, nQuads, live, buffer);
        addr := Next(addr);
      }
    }

    /** One pass through that loop. */
    method ReadInto(outreg0: bv32, last: bool, addr: Addr, data: array<Word>, q: nat, ghost b0: Board,
                    ghost base: Addr, ghost n: nat, ghost live: bool, ghost buffer: seq<Word>)
      returns (outreg: bv32)
      requires BlockValue(outreg0, base, false) && addr == Advance(base, q) && last == (q + 1 == n)
      requires b0.dirLower == 0 && q < n && q < data.Length && (live ==> Quick(b0))
      requires Midway(Speed(live), b0, board, base, n, q, buffer, data[..])
      modifies this`board, data
      ensures BlockValue(outreg, base, last) && Midway(Speed(live), b0, board, base, n, q + 1, buffer, data[..])
    {
      var val;
      outreg, val := ReadOne(outreg0, last, addr, b0, base, n, q, live);
      FilledMore(b0.regs, base, buffer, data[..], q, live, Bswap(val));
      Store(data, q, Bswap(val));
    }

    method WriteBlock(addr: Addr, data: seq<Word>, nBytes: nat) returns (ok: bool)
      requires Valid() && nBytes < 0x1_0000_0000 && Quads(nBytes) <= |data|
      modifies this
      ensures Valid() && SameFirmware(old(board), board)
      ensures ok <==> old(board).version >= 1
      ensures board.events == old(board).events + if ok then WriteEvents(addr, Swapped(data[..Quads(nBytes)])) else []
      ensures old(InTime()) ==> InTime()
      ensures old(InTime()) ==>
                board.regs == if ok then WriteSeq(old(board).regs, addr, Swapped(data[..Quads(nBytes)]))
                              else old(board).regs
    {
      if board.version < 1 { return false; }
      SetOutput();
      WriteQuads(addr, data[..Quads(nBytes)]);
      return true;
    }

    /** The loop of WriteBlock and the write that returns all lines to 0. */
    method WriteQuads(addr0: Addr, data: seq<Word>)
      requires Valid() && !isInput
      modifies this`board
      ensures Valid() && SameFirmware(old(board), board)
      ensures board.events == old(board).events + WriteEvents(addr0, Swapped(data))
      ensures old(InTime()) ==> !board.busy && board.regs == WriteSeq(old(board).regs, addr0, Swapped(data))
    {
      var nQuads, addr := |data|, addr0;
      var outreg := FirstWord(addr);
      ghost var b0, live, words := board, InTime(), Swapped(data);
      for q := 0 to nQuads
        invariant addr == Advance(addr0, q)
        invariant q < nQuads ==> BlockValue(outreg, addr0, false)
        invariant WroteSoFar(b0, board, addr0, words, q, live)
      {
        var val := Bswap(data[q]);
        board := board.(outLower := val);
        ghost var b := board;
        outreg := BlockQuadlet(outreg, q == nQuads - 1, addr, b0, addr0, nQuads, q);
        addr := Next(addr);
        WriteNext(b0, b, board, addr0, words, q, live);
      }
      assert words[..nQuads] == words;
      WaitOpClear();
      Release();
    }
  }

  lemma SwappedReads(regs: Registers, a: Addr, q: nat)
    ensures Swapped(ReadSeq(regs, a, q + 1)) == Swapped(ReadSeq(regs, a, q)) + [Bswap(regs(Advance(a, q)))]
  {
    ReadSeqLast(regs, a, q);
  }

  /** The words before `q` have been stored, those behind are as before. */
  ghost predicate Filled(regs: Registers, a: Addr, buffer: seq<Word>, data: seq<Word>, q: nat, live: bool) {
    && q <= |data| == |buffer| && data[q..] == buffer[q..]
    && (live ==> data[..q] == Swapped(ReadSeq(regs, a, q)))
  }

  /** Whether the firmware answers before the timeout. */
  datatype Firmware = Prompt | Slow

  ghost function Speed(live: bool): Firmware {
    if live then Prompt else Slow
  }

  /** A block read that began on board `b0` has sampled and stored `q` of its words. */
  ghost predicate Midway(f: Firmware, b0: Board, b: Board, base: Addr, n: nat, q: nat, buffer: seq<Word>,
                         data: seq<Word>)
  {
    match f
    case Prompt => ReadSoFar(b0, b, base, n, q, true) && Filled(b0.regs, base, buffer, data, q, true)
    case Slow => ReadSoFar(b0, b, base, n, q, false) && Filled(b0.regs, base, buffer, data, q, false)
  }

  lemma MidwayNone(b0: Board, base: Addr, n: nat, live: bool, buffer: seq<Word>)
    requires b0.upper == ZERO && (live ==> !b0.busy)
    ensures Midway(Speed(live), b0, b0, base, n, 0, buffer, buffer)
  {
    ReadBegin(b0, base, n, live);
  }

  lemma FilledMore(regs: Registers, a: Addr, buffer: seq<Word>, data: seq<Word>, q: nat, live: bool, w: Word)
    requires q < |data| && Filled(regs, a, buffer, data, q, live) && (live ==> w == Bswap(regs(Advance(a, q))))
    ensures Filled(regs, a, buffer, data[q := w], q + 1, live)
  {
    Stored(data, buffer, q, w);
    SwappedReads(regs, a, q);
  }

  /** What a store does to the cells before and behind it. */
  lemma Stored(data: seq<Word>, buffer: seq<Word>, q: nat, w: Word)
    requires q < |data| == |buffer| && data[q..] == buffer[q..]
    ensures data[q := w][..q + 1] == data[..q] + [w] && data[q := w][q + 1..] == buffer[q + 1..]
  {
    assert data[q..][1..] == buffer[q..][1..];
  }
}
