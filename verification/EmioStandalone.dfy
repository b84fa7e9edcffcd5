/** The bare-metal EMIO driver (fpgav3_emio.c): single-quadlet and block transfers. */
module EmioStandalone {
  import opened ByteOrder
  import opened EmioBoard
  import opened EmioWord

  class Driver {
    var board: Board

    /** Between calls all output lines are 0 and no operation is in progress. */
    ghost predicate Valid()
      reads this
    {
      board.upper == ZERO && !board.busy
    }

    /** EMIO_Init, on lines in any state; an operation in progress is not waited for. */
    constructor (b: Board)
      ensures board == b.(dirLower := 0, upper := ZERO)
      ensures Valid() <==> !b.busy
    {
      ZeroWord();
      board := b.(dirLower := 0).Drive(Decode(0));
    }

    /** Writes to the upper output register: the request lines of a quadlet read and of a
        quadlet write, and all lines back to 0. */
    method RequestRead(addr: Addr)
      modifies this`board
      ensures board == old(board).Drive(ZERO.(addr := addr, req := true))
    {
      ReadWord(addr);
      board := board.Drive(Decode(AddrWord(addr) | REQUEST_BUS));
    }

    method RequestWrite(addr: Addr)
      modifies this`board
      ensures board == old(board).Drive(ZERO.(addr := addr, wen := true, req := true))
    {
      WriteWord(addr);
      board := board.Drive(Decode(AddrWord(addr) | REG_WEN | REQUEST_BUS));
    }

    method Release()
      modifies this`board
      ensures board == old(board).Drive(ZERO)
    {
      ZeroWord();
      board := board.Drive(Decode(0));
    }

    /** Polls op_done until it is up, however long the firmware takes. */
    method WaitOpDone(num: nat)
      requires board.busy != board.done
      modifies this`board
      ensures board == if old(board).busy then old(board).Complete() else old(board)
    {
      var i := 0;
      var upper := false;
      ghost var b0 := board;
      while i < num && !upper
        invariant i <= num
        invariant upper ==> board.done && !board.busy
        invariant Settling(b0, board)
      {
        board := board.Poll();
        upper := board.done;
        i := i + 1;
      }
      if i == num {
        while !upper
          invariant upper ==> board.done && !board.busy
          invariant Settling(b0, board)
          decreases if board.busy then board.wait + 1 else 0, !upper
        {
          board := board.Poll();
          upper := board.done;
        }
      }
    }

    method SetDataInput() returns (ok: bool)
      requires Valid()
      modifies this
      ensures Valid() && ok
      ensures board == old(board).(dirLower := 0)
    {
      board := board.(dirLower := 0);
      board := board.Poll();
      ok := !(board.upper.req || board.Writing());
    }

    method SetDataOutput() returns (ok: bool)
      requires Valid()
      modifies this
      ensures Valid() && ok
      ensures board == old(board).(dirLower := ALL_LINES, enLower := ALL_LINES)
    {
      board := board.(dirLower := ALL_LINES);
      board := board.(enLower := ALL_LINES);
      board := board.Poll();
      ok := !board.upper.req && board.Writing();
    }

    method ReadQuadlet(addr: Addr) returns (ok: bool, data: Word)
      requires Valid()
      modifies this
      ensures Valid() && ok
      ensures data == old(board).regs(addr)
      ensures board.regs == old(board).regs && board.version == old(board).version
      ensures board.events == old(board).events + [Event(false, addr, false, false, false, 0)]
    {
      data := 0;
      ok := SetDataInput();
      if !ok { return; }
      RequestRead(addr);
      WaitOpDone(5);
      data := board.DataIn();
      Release();
      ok := true;
    }

    method WriteQuadlet(addr: Addr, data: Word) returns (ok: bool)
      requires Valid()
      modifies this
      ensures Valid() && ok
      ensures board.regs == Update(old(board).regs, addr, data) && board.version == old(board).version
      ensures board.events == old(board).events + [Event(true, addr, false, false, false, data)]
    {
      ok := SetDataOutput();
      if !ok { return; }
      board := board.(outLower := data);
      RequestWrite(addr);
      WaitOpDone(5);
      Release();
      ok := true;
    }

    /** One quadlet of a block transfer: lines 192-205 and 246-261. */
    method BlockQuadlet(outreg0: bv32, last: bool, addr: Addr, ghost b0: Board, ghost base: Addr,
                        ghost n: nat, ghost q: nat)
      returns (outreg: bv32)
      requires BlockValue(outreg0, base, false) && addr == Advance(base, q) && last == (q + 1 == n)
      requires InBlock(b0, board, base, q) && !board.busy
      modifies this`board
      ensures BlockValue(outreg, base, last) && Stepped(b0, old(board), board, base, n, q, true)
    {
      outreg := QuadletWord(outreg0, last, addr % 2 == 1);
      BlockStep(b0, board, base, q, last);
      board := board.Drive(Decode(outreg));
      WaitOpDone(5);
    }

    /** One quadlet of a block read. */
    method ReadOne(outreg0: bv32, last: bool, addr: Addr, ghost b0: Board, ghost base: Addr, ghost n: nat,
                   ghost q: nat, ghost live: bool)
      returns (outreg: bv32, val: Word)
      requires BlockValue(outreg0, base, false) && addr == Advance(base, q) && last == (q + 1 == n)
      requires b0.dirLower == 0 && q < n && ReadSoFar(b0, board, base, n, q, live) && live
      modifies this`board
      ensures BlockValue(outreg, base, last) && ReadSoFar(b0, board, base, n, q + 1, live)
      ensures val == b0.regs(Advance(base, q))
    {
      ghost var b := board;
      outreg := BlockQuadlet(outreg0, last, addr, b0, base, n, q);
      val := board.DataIn();
      ReadNext(b0, b, board, base, n, q, live);
    }

    /** EMIO_ReadBlock returns what Quads(nBytes) single reads at addr, addr+1, ... would
        return, although the driver only toggles the LSB line. */
    method ReadBlock(addr: Addr, data: array<Word>, nBytes: nat) returns (ok: bool)
      requires Valid() && nBytes < 0x1_0000_0000 && Quads(nBytes) <= data.Length
      modifies this, data
      ensures Valid() && (ok <==> old(board).version == 1) && SameFirmware(old(board), board)
      ensures board.regs == old(board).regs
      ensures ok ==> data[..Quads(nBytes)] == ReadSeq(old(board).regs, addr, Quads(nBytes))
      ensures forall k :: (if ok then Quads(nBytes) else 0) <= k < data.Length ==> data[k] == old(data[k])
      ensures board.events == old(board).events + if ok then ReadEvents(addr, Quads(nBytes)) else []
    {
      if board.version != 1 { return false; }
      ok := SetDataInput();
      if !ok { return; }
      ReadQuads(addr, data, Quads(nBytes));
      return true;
    }

    /** The loop of EMIO_ReadBlock and the write that returns all lines to 0. */
    method ReadQuads(addr0: Addr, data: array<Word>, nQuads: nat)
      requires Valid() && board.dirLower == 0 && nQuads <= data.Length
      modifies this, data
      ensures Valid() && SameFirmware(old(board), board) && board.regs == old(board).regs
      ensures data[..nQuads] == ReadSeq(old(board).regs, addr0, nQuads)
      ensures forall k :: nQuads <= k < data.Length ==> data[k] == old(data[k])
      ensures board.events == old(board).events + ReadEvents(addr0, nQuads)
    {
      ReadLoop(addr0, data, nQuads);
      ReadFinish(old(board), board, addr0, nQuads, true);
      Release();
    }

    method ReadLoop(addr0: Addr, data: array<Word>, nQuads: nat)
      requires Valid() && board.dirLower == 0 && nQuads <= data.Length
      modifies this, data
      ensures ReadSoFar(old(board), board, addr0, nQuads, nQuads, true)
      ensures data[..] == ReadSeq(old(board).regs, addr0, nQuads) + old(data[..])[nQuads..]
    {
      var addr := addr0;
      var outreg := FirstWord(addr);
      ghost var b0, buffer := board, data[..];
      for q := 0 to nQuads
        invariant addr == Advance(addr0, q)
        invariant q < nQuads ==> BlockValue(outreg, addr0, false)
        invariant ReadSoFar(b0, board, addr0, nQuads, q, true)
        invariant data[..] == ReadSeq(b0.regs, addr0, q) + buffer[q..]
      {
        var val;
        outreg, val := ReadOne(outreg, q == nQuads - 1, addr, b0, addr0, nQuads, q, true);
        addr := Next(addr);
        ReadSeqSplice(b0.regs, addr0, q, buffer);
        Store(data, q, val);
      }
    }

    /** EMIO_WriteBlock leaves the register file as Quads(nBytes) single writes would. */
    method WriteBlock(addr: Addr, data: array<Word>, nBytes: nat) returns (ok: bool)
      requires Valid() && nBytes < 0x1_0000_0000 && Quads(nBytes) <= data.Length
      modifies this
      ensures Valid() && (ok <==> old(board).version == 1) && SameFirmware(old(board), board)
      ensures board.regs == if ok then WriteSeq(old(board).regs, addr, data[..Quads(nBytes)]) else old(board).regs
      ensures board.events == old(board).events + if ok then WriteEvents(addr, data[..Quads(nBytes)]) else []
    {
      if board.version != 1 { return false; }
      ok := SetDataOutput();
      if !ok { return; }
      WriteQuads(addr, data[..Quads(nBytes)]);
      return true;
    }

    /** The loop of EMIO_WriteBlock and the write that returns all lines to 0. */
    method WriteQuads(addr0: Addr, data: seq<Word>)
      requires Valid() && board.Writing()
      modifies this
      ensures Valid() && SameFirmware(old(board), board)
      ensures board.regs == WriteSeq(old(board).regs, addr0, data)
      ensures board.events == old(board).events + WriteEvents(addr0, data)
    {
      var nQuads, addr := |data|, addr0;
      var outreg := FirstWord(addr);
      ghost var b0 := board;
      for q := 0 to nQuads
        invariant addr == Advance(addr0, q)
        invariant q < nQuads ==> BlockValue(outreg, addr0, false)
        invariant WroteSoFar(b0, board, addr0, data, q, true)
      {
        var val := data[q];
        board := board.(outLower := val);
        ghost var b := board;
        outreg := BlockQuadlet(outreg, q == nQuads - 1, addr, b0, addr0, nQuads, q);
        addr := Next(addr);
        WriteNext(b0, b, board, addr0, data, q, true);
      }
      assert data[..nQuads] == data;
      Release();
    }
  }

  /** `b` is reached from `b0` by polling. */
  ghost predicate Settling(b0: Board, b: Board) {
    || (b0.busy && b.busy && b.wait <= b0.wait && b == b0.(wait := b.wait))
    || (b0.busy && b == b0.Complete())
    || (!b0.busy && b == b0)
  }
}
