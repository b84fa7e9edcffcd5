/** The Linux libgpiod EMIO driver (EMIO_Interface_Gpiod), in polling mode. Every libgpiod
    call may fail; a call that fails leaves the lines as they were. The calls that return
    req_bus and the control lines to 0 are taken to succeed. */
module EmioGpiod {
  import opened ByteOrder
  import opened EmioBoard
  import opened LineBits
  import opened GpiodWire

  class Driver {
    var board: Board
    var isInput: bool
    var calls: nat              // libgpiod calls made so far
    const fails: nat -> bool    // which of them fail
    const polls: nat            // status reads that fit in the timeout, beyond the first

    /** The shadow `isInput` agrees with the lines, and between calls req_bus and the
        control lines are 0, whatever failed before. */
    ghost predicate Valid()
      reads this
    {
      Agrees() && Idle(board.upper)
    }

    ghost predicate Agrees()
      reads this
    {
      && (isInput ==> board.dirLower == 0)
      && (!isInput ==> board.dirLower == ALL_LINES && board.enLower == ALL_LINES)
    }

    ghost predicate NoFailure() {
      forall k :: !fails(k)
    }

    /** The next `n` operations on board `b` are answered before the timeout. */
    ghost predicate Timely(b: Board, n: nat) {
      forall k :: |b.events| <= k < |b.events| + n ==> b.delay(k) <= polls
    }

    /** No call fails and the firmware always answers before the timeout. */
    ghost predicate Healthy()
      reads this
    {
      NoFailure() && (forall k :: board.delay(k) <= polls)
    }

    /** No call fails and no operation is in progress. */
    ghost predicate Sound()
      reads this
    {
      NoFailure() && !board.busy
    }

    /** The successful part of Init, on lines in any state: the lines go down one group after
        the other, so an LSB line found high under req_bus starts an operation on its way. */
    constructor (b: Board, fails: nat -> bool, polls: nat)
      ensures Valid() && isInput && calls == 0 && this.fails == fails && this.polls == polls
      ensures board.upper == ZERO && board.regs == b.regs && SameFirmware(b, board)
      ensures var starts := b.upper.req && b.upper.lsb;
              && board.busy == (b.busy || starts)
              && board.events == b.events +
                   if starts then [Event(false, 0, false, b.upper.blkStart, b.upper.blkEnd, 0)] else []
    {
      var b1 := b.(dirLower := 0);
      b1 := b1.Drive(b1.upper.(addr := 0));
      b1 := b1.Drive(b1.upper.(lsb := false));
      b1 := b1.Drive(b1.upper.(req := false));
      b1 := b1.Drive(b1.upper.(wen := false, blkStart := false, blkEnd := false));
      board := b1;
      isInput := true;
      calls := 0;
      this.fails := fails;
      this.polls := polls;
    }

    // ----- libgpiod calls

    method Attempt() returns (ok: bool)
      modifies this`calls
      ensures (forall k :: !fails(k)) ==> ok
    {
      ok := !fails(calls);
      calls := calls + 1;
    }

    method DriveLines(u: Upper) returns (ok: bool)
      modifies this`calls, this`board
      ensures board == if ok then old(board).Drive(u) else old(board)
      ensures (forall k :: !fails(k)) ==> ok
    {
      ok := Attempt();
      if ok {
        board := board.Drive(u);
      }
    }

    method SetAddrLines(values: seq<int>) returns (ok: bool)
      requires |values| == 16
      modifies this`calls, this`board
      ensures Pins(values) < 0x1_0000
      ensures board == if ok then old(board).(upper := old(board).upper.(addr := Pins(values))) else old(board)
      ensures (forall k :: !fails(k)) ==> ok
    {
      PinsBound(values);
      Pow2Sizes();
      ok := DriveLines(board.upper.(addr := Pins(values)));
    }

    method SetLsbLine(value: int) returns (ok: bool)
      modifies this`calls, this`board
      ensures board == if ok then old(board).Drive(old(board).upper.(lsb := value != 0)) else old(board)
      ensures (forall k :: !fails(k)) ==> ok
    {
      ok := DriveLines(board.upper.(lsb := value != 0));
    }

    method SetReqLine() returns (ok: bool)
      modifies this`calls, this`board
      ensures board == if ok then old(board).Drive(old(board).upper.(req := true)) else old(board)
      ensures (forall k :: !fails(k)) ==> ok
    {
      ok := DriveLines(board.upper.(req := true));
    }

    method SetCtrlLines(wen: bool, blkStart: bool, blkEnd: bool) returns (ok: bool)
      modifies this`calls, this`board
      ensures board == if ok
                       then old(board).(upper := old(board).upper.(wen := wen, blkStart := blkStart, blkEnd := blkEnd))
                       else old(board)
      ensures (forall k :: !fails(k)) ==> ok
    {
      ok := DriveLines(board.upper.(wen := wen, blkStart := blkStart, blkEnd := blkEnd));
    }

    method ClearReq()
      modifies this`board
      ensures board == old(board).(upper := old(board).upper.(req := false))
    {
      board := board.Drive(board.upper.(req := false));
    }

    method ClearCtrl()
      requires !board.upper.req
      modifies this`board
      ensures board == old(board).(upper := old(board).upper.(wen := false, blkStart := false, blkEnd := false))
    {
      board := board.Drive(board.upper.(wen := false, blkStart := false, blkEnd := false));
    }

    /** req_bus back to 0, then the control lines. */
    method CleanUp()
      modifies this`board
      ensures board == old(board).(upper := board.upper)
      ensures Idle(board.upper)
    {
      ClearReq();
      ClearCtrl();
    }

    method SetDataLines(values: seq<int>) returns (ok: bool)
      requires |values| == 32
      modifies this`calls, this`board
      ensures Pins(values) < 0x1_0000_0000
      ensures board == if ok then old(board).(outLower := Pins(values)) else old(board)
      ensures (forall k :: !fails(k)) ==> ok
    {
      PinsBound(values);
      Pow2Sizes();
      ok := Attempt();
      if ok {
        board := board.(outLower := Pins(values));
      }
    }

    method GetDataLines() returns (ok: bool, values: seq<int>)
      requires board.dirLower == 0
      modifies this`calls
      ensures |values| == 32 && forall i :: 0 <= i < 32 ==> 0 <= values[i] <= 1
      ensures ok ==> Pins(values) == board.DataIn()
      ensures (forall k :: !fails(k)) ==> ok
    {
      ok := Attempt();
      values := Lines(board.DataIn(), 32);
      Pow2Sizes();
      PinsOfLines(board.DataIn(), 32);
      BitRange(board.DataIn());
    }

    method SetInput() returns (ok: bool)
      requires Valid()
      modifies this
      ensures Valid()
      ensures ok ==> isInput && board == old(board).(dirLower := 0)
      ensures !ok ==> board == old(board)
      ensures (forall k :: !fails(k)) ==> ok
    {
      if !isInput {
        ok := Attempt();
        if !ok { return false; }
        board := board.(dirLower := 0);
        isInput := true;
      }
      return true;
    }

    /** Direction to output; this call also sets the line values. */
    method SetOutput(values: seq<int>) returns (ok: bool)
      requires Valid() && isInput && |values| == 32
      modifies this
      ensures Valid()
      ensures Pins(values) < 0x1_0000_0000
      ensures ok ==> !isInput &&
                     board == old(board).(dirLower := ALL_LINES, enLower := ALL_LINES, outLower := Pins(values))
      ensures !ok ==> isInput && board == old(board)
      ensures (forall k :: !fails(k)) ==> ok
    {
      PinsBound(values);
      Pow2Sizes();
      ok := Attempt();
      if !ok { return false; }
      board := board.(dirLower := ALL_LINES, enLower := ALL_LINES, outLower := Pins(values));
      isInput := false;
    }

    /** Polls op_done up to the timeout; a failed poll counts as op_done not set. */
    method WaitOpDone() returns (ok: bool)
      modifies this`calls, this`board
      ensures Polled(old(board), board)
      ensures !old(board).busy ==> board == old(board)
      ensures ok ==> board.done && (old(board).busy != old(board).done ==> !board.busy)
      ensures NoFailure() ==> (ok <==> board.done)
      ensures NoFailure() && old(board).busy && !old(board).done ==>
                && (ok <==> old(board).wait <= polls)
                && board == if ok then old(board).Complete() else old(board).(wait := board.wait)
    {
      var got := Attempt();
      board := board.Poll();
      var val := if got then (if board.done then 1 else 0) else -1;
      if val <= 0 {
        var n := 0;
        while val <= 0 && n < polls
          invariant n <= polls
          invariant Polled(old(board), board)
          invariant !old(board).busy ==> board == old(board)
          invariant (val == 1 ==> board.done) && (NoFailure() ==> (val == 1 <==> board.done))
          invariant old(board).busy != old(board).done ==> board.busy != board.done
          invariant NoFailure() && old(board).busy && !old(board).done ==>
              if n < old(board).wait then board == old(board).(wait := old(board).wait - n - 1) && val <= 0
              else board == old(board).Complete() && val == 1
          invariant val <= 1
          decreases polls - n
        {
          got := Attempt();
          board := board.Poll();
          val := if got then (if board.done then 1 else 0) else -1;
          n := n + 1;
        }
      }
      ok := val == 1;
    }

    // ----- single quadlets

    /** Address, control lines and req_bus of a single-quadlet transfer; the source
        ignores the results of these calls. */
    method Request(addr: Addr, wen: bool, blkEnd: bool)
      requires Idle(board.upper)
      modifies this`calls, this`board
      ensures SameDirection(old(board), board) && Grew(old(board), board, old(board).Writing())
      ensures !board.upper.blkStart && (board.upper.wen ==> wen) && (board.upper.blkEnd ==> blkEnd)
      ensures (forall k :: !fails(k)) ==>
                board == old(board).Start(Upper(addr, old(board).upper.lsb, true, wen, false, blkEnd), addr)
    {
      SetUp(addr, wen, false, blkEnd);
      var _ := SetReqLine();
    }

    /** The lines of a transfer before req_bus goes up. */
    method SetUp(addr: Addr, wen: bool, blkStart: bool, blkEnd: bool)
      requires Idle(board.upper)
      modifies this`calls, this`board
      ensures board == old(board).(upper := board.upper) && board.upper.lsb == old(board).upper.lsb && !board.upper.req
      ensures (board.upper.blkStart ==> blkStart) && (board.upper.wen ==> wen) && (board.upper.blkEnd ==> blkEnd)
      ensures (forall k :: !fails(k)) ==>
                board.upper == Upper(addr, old(board).upper.lsb, false, wen, blkStart, blkEnd)
    {
      var addrValues := Unpack(addr, 16);
      AddrPins(addr);
      var _ := SetAddrLines(addrValues);
      var _ := SetCtrlLines(wen, blkStart, blkEnd);
    }

    method ReadQuadlet(addr: Addr) returns (ok: bool, data: Word)
      requires Valid()
      modifies this
      ensures Valid() && SameFirmware(old(board), board) && Grew(old(board), board, false)
      ensures ok ==> board.done && isInput && data == board.rdata
      ensures old(Sound()) ==>
                && (ok <==> Timely(old(board), 1)) && (ok ==> data == old(board).regs(addr) && !board.busy)
                && board.regs == old(board).regs && isInput && board.outLower == old(board).outLower
                && board.events == old(board).events + [Event(false, addr, old(board).upper.lsb, false, false, 0)]
    {
      data := 0;
      ok := SetInput();
      if !ok { return; }
      Request(addr, false, false);
      ok := WaitOpDone();
      if !ok {
        ClearReq();
        return;
      }
      var values;
      ok, values := GetDataLines();
      ClearReq();
      if !ok { return; }
      data := PackWord(values);
    }

    method PackWord(values: seq<int>) returns (w: Word)
      requires |values| == 32 && forall i :: 0 <= i < 32 ==> 0 <= values[i] <= 1
      ensures w == Pins(values)
    {
      PinsBound(values);
      Pow2Sizes();
      var val := Pack(values);
      w := val;
    }

    method WriteQuadlet(addr: Addr, data: Word) returns (ok: bool)
      requires Valid()
      modifies this
      ensures Valid() && SameFirmware(old(board), board) && Grew(old(board), board, true)
      ensures ok ==> board.done && !isInput
      ensures old(Sound()) ==>
                && (ok <==> Timely(old(board), 1)) && (ok ==> !board.busy)
                && board.regs == (if ok then Update(old(board).regs, addr, data) else old(board).regs)
                && !isInput && board.outLower == data
                && board.events == old(board).events + [Event(true, addr, old(board).upper.lsb, false, true, data)]
    {
      ok := PutWord(data);
      if !ok { return; }
      Request(addr, true, true);
      ok := WaitOpDone();
      CleanUp();
    }

    /** The word onto the data lines, which become outputs; the result of setting the values
        alone is ignored. */
    method PutWord(data: Word) returns (ok: bool)
      requires Valid()
      modifies this
      ensures Valid() && (ok ==> !isInput) && (!ok ==> board == old(board))
      ensures board == old(board).(dirLower := board.dirLower, enLower := board.enLower, outLower := board.outLower)
      ensures (forall k :: !fails(k)) ==> ok && board.outLower == data
    {
      ok := true;
      var dataValues := Unpack(data, 32);
      DataPins(data);
      if isInput {
        ok := SetOutput(dataValues);
      } else {
        var _ := SetDataLines(dataValues);
      }
    }

    /** What the wait for quadlet `q` of a block decides, the operations before it having been
        answered: an operation started for it, if any, is the last one. */
    lemma InTime(b0: Board, b: Board, base: Addr, n: nat, q: nat, words: seq<Word>)
      requires q < |words| && Launched(b0, b, base, n, q + 1) && (q > 0 ==> b.busy == !Odd(base)) && (q == 0 ==> b.busy)
      requires b.events == b0.events + GpiodEvents(b0.Writing(), base, n, words, q + 1)
      requires Timely(b0, Started(base, q))
      ensures Timely(b0, Started(base, q + 1)) <==> !b.busy || b.wait <= polls
    {
      EventCount(b0.Writing(), base, n, words, q + 1);
    }

    // ----- block reads

    /** Everything before the loop of ReadBlock; on failure the lines are idle. */
    method BeginRead(addr: Addr) returns (ok: bool, lsb: int)
      requires Idle(board.upper) && !board.Writing()
      modifies this`calls, this`board
      ensures SameDirection(old(board), board) && Grew(old(board), board, false)
      ensures lsb == LsbValue(addr, 0)
      ensures !ok ==> Idle(board.upper)
      ensures (forall k :: !fails(k)) ==>
                ok && board == old(board).Start(Upper(addr, Odd(addr), true, false, true, false), addr)
    {
      lsb := LsbValue(addr, 0);
      ok := SetCtrlLines(false, true, false);
      if !ok { return; }
      var addrValues := Unpack(addr, 16);
      AddrPins(addr);
      LastLine(addr);
      ok := SetAddrLines(addrValues);
      if !ok {
        ClearCtrl();
        return;
      }
      lsb := addrValues[15];
      var _ := SetLsbLine(lsb);
      ok := SetReqLine();
      if !ok {
        ClearCtrl();
      }
    }

    /** The line changes for quadlet q > 0 of a block read; on failure the lines are idle. */
    method NextRead(last: bool, lsb0: int) returns (ok: bool, lsb: int)
      requires !board.Writing()
      modifies this`calls, this`board
      ensures SameDirection(old(board), board) && Grew(old(board), board, false)
      ensures lsb == Complement(lsb0)
      ensures !ok ==> Idle(board.upper)
      ensures (forall k :: !fails(k)) ==>
                var b1 := BlockEndLines(old(board), last);
                ok && board == b1.Drive(b1.upper.(lsb := lsb != 0))
    {
      lsb := Complement(lsb0);
      if last {
        ok := SetCtrlLines(false, false, true);
        if !ok {
          CleanUp();
          return;
        }
      }
      ok := SetLsbLine(lsb);
      if !ok {
        CleanUp();
      }
    }

    /** The wait and the sampling of one quadlet; on failure the lines are idle. */
    method FinishRead() returns (ok: bool, w: Word)
      requires board.dirLower == 0
      modifies this`calls, this`board
      ensures SameDirection(old(board), board) && board.events == old(board).events
      ensures !ok ==> Idle(board.upper)
      ensures ok ==> board.done && w == Bswap(board.rdata)
      ensures NoFailure() && old(board).busy != old(board).done ==>
                && (ok <==> !old(board).busy || old(board).wait <= polls)
                && (ok ==> board == (if old(board).busy then old(board).Complete() else old(board)))
    {
      w := 0;
      ok := WaitOpDone();
      if !ok {
        CleanUp();
        return;
      }
      var values;
      ok, values := GetDataLines();
      if !ok {
        CleanUp();
        return;
      }
      var val := PackWord(values);
      w := Bswap(val);
    }

    /** One pass through the loop of ReadBlock; on failure the lines are idle. */
    method ReadOne(addr: Addr, n: nat, q: nat, lsb0: int, ghost b0: Board, ghost live: bool)
      returns (ok: bool, lsb: int, w: Word)
      requires q < n && board.dirLower == 0 && SameDirection(b0, board)
      requires lsb0 == LsbValue(addr, if q == 0 then 0 else q - 1)
      requires live ==> NoFailure() && Reading(b0, board, addr, n, q) && Timely(b0, Started(addr, q))
      modifies this`calls, this`board
      ensures SameDirection(old(board), board) && Grew(old(board), board, false)
      ensures lsb == LsbValue(addr, q)
      ensures !ok ==> Idle(board.upper)
      ensures ok ==> board.done && w == Bswap(board.rdata)
      ensures live ==> (ok <==> Timely(b0, Started(addr, q + 1)))
      ensures live && ok ==> Reading(b0, board, addr, n, q + 1)
      ensures live && ok ==> w == Bswap(b0.regs(Advance(addr, Started(addr, q + 1) - 1)))
    {
      w, ok, lsb := 0, true, lsb0;
      if q > 0 {
        if live { Launch(b0, board, addr, n, q, Quiet(n)); }
        ok, lsb := NextRead(q == n - 1, lsb0);
        if !ok { return; }
      }
      if live {
        Answered(b0, board, addr, n, q + 1);
        InTime(b0, board, addr, n, q, Quiet(AtLeastOne(n)));
      }
      ok, w := FinishRead();
    }

    /** ReadBlock with its error exits. Without failures it returns what single reads
        would return if the block starts at an even address; from an odd one the LSB line
        never moves and every quadlet is the first one again. */
    method ReadBlock(addr: Addr, data: array<Word>, nBytes: nat) returns (ok: bool)
      requires Valid() && nBytes < 0x1_0000_0000 && Quads(nBytes) <= data.Length
      modifies this, data
      ensures Valid() && SameFirmware(old(board), board) && Grew(old(board), board, false)
      ensures old(board).version < 1 ==> !ok && board == old(board)
      ensures forall k :: Quads(nBytes) <= k < data.Length ==> data[k] == old(data[k])
      ensures ok ==> isInput
      ensures ok && Quads(nBytes) > 0 ==> board.done && data[Quads(nBytes) - 1] == Bswap(board.rdata)
      ensures old(Sound()) && old(board).version >= 1 ==>
                isInput && (ok <==> Timely(old(board), Started(addr, Quads(nBytes))))
      ensures old(Sound()) && ok ==>
                && ReadDone(old(board), board, addr, Quads(nBytes))
                && forall k :: 0 <= k < Quads(nBytes) ==>
                     data[k] == Bswap(old(board).regs(Advance(addr, Started(addr, k + 1) - 1)))
    {
      if board.version < 1 { return false; }
      ok := SetInput();
      if !ok { return; }
      ok := ReadQuads(addr, data, Quads(nBytes));
      assert forall k :: Quads(nBytes) <= k < data.Length ==> data[k] == data[..][Quads(nBytes)..][k - Quads(nBytes)];
    }

    method ReadQuads(addr: Addr, data: array<Word>, nQuads: nat) returns (ok: bool)
      requires Valid() && isInput && nQuads <= data.Length
      modifies this`calls, this`board, data
      ensures SameDirection(old(board), board) && Idle(board.upper) && Grew(old(board), board, false)
      ensures data[..][nQuads..] == old(data[..])[nQuads..]
      ensures ok && nQuads > 0 ==> board.done && data[..][nQuads - 1] == Bswap(board.rdata)
      ensures old(Sound()) ==> (ok <==> Timely(old(board), Started(addr, nQuads)))
      ensures old(Sound()) && ok ==>
                ReadDone(old(board), board, addr, nQuads) && Fetched(old(board).regs, addr, data[..], nQuads)
    {
      ghost var b0, live := board, Sound();
      var lsb;
      ok, lsb := BeginRead(addr);
      if !ok { return; }
      if live { FirstLaunch(b0, addr, nQuads, Quiet(AtLeastOne(nQuads))); }
      for q := 0 to nQuads
        invariant SameDirection(b0, board) && Grew(b0, board, false)
        invariant data[..][nQuads..] == old(data[..])[nQuads..]
        invariant lsb == LsbValue(addr, if q == 0 then 0 else q - 1)
        invariant q > 0 ==> board.done && data[..][q - 1] == Bswap(board.rdata)
        invariant live ==> Reading(b0, board, addr, nQuads, q) && Timely(b0, Started(addr, q))
        invariant live ==> Fetched(b0.regs, addr, data[..], q)
      {
        ok, lsb := ReadInto(addr, data, nQuads, q, lsb, b0, live);
        if !ok { return; }
      }
      CleanUp();
      return true;
    }

    /** One pass through that loop. */
    method ReadInto(addr: Addr, data: array<Word>, n: nat, q: nat, lsb0: int, ghost b0: Board, ghost live: bool)
      returns (ok: bool, lsb: int)
      requires q < n <= data.Length && board.dirLower == 0 && SameDirection(b0, board)
      requires lsb0 == LsbValue(addr, if q == 0 then 0 else q - 1)
      requires live ==> NoFailure() && Reading(b0, board, addr, n, q) && Timely(b0, Started(addr, q))
      requires live ==> Fetched(b0.regs, addr, data[..], q)
      modifies this`calls, this`board, data
      ensures SameDirection(old(board), board) && Grew(old(board), board, false)
      ensures data[..][n..] == old(data[..])[n..] && lsb == LsbValue(addr, q)
      ensures !ok ==> Idle(board.upper)
      ensures ok ==> board.done && data[..][q] == Bswap(board.rdata)
      ensures live ==> (ok <==> Timely(b0, Started(addr, q + 1)))
      ensures live && ok ==> Reading(b0, board, addr, n, q + 1) && Fetched(b0.regs, addr, data[..], q + 1)
    {
      var w;
      ok, lsb, w := ReadOne(addr, n, q, lsb0, b0, live);
      if !ok { return; }
      if live { FetchedMore(b0.regs, addr, data[..], q, w); }
      Behind(data[..], q, w, n);
      Store(data, q, w);
    }

    // ----- block writes

    /** Address, LSB and control lines and req_bus of a block write; results ignored. */
    method BeginWrite(addr: Addr) returns (lsb: int)
      requires Idle(board.upper) && board.Writing()
      modifies this`calls, this`board
      ensures SameDirection(old(board), board) && Grew(old(board), board, true)
      ensures lsb == LsbValue(addr, 0)
      ensures (forall k :: !fails(k)) ==>
                board == old(board).Start(Upper(addr, Odd(addr), true, false, true, false), addr)
    {
      lsb := SetUpWrite(addr);
      var _ := SetReqLine();
    }

    method SetUpWrite(addr: Addr) returns (lsb: int)
      requires Idle(board.upper)
      modifies this`calls, this`board
      ensures board == old(board).(upper := board.upper) && !board.upper.req
      ensures lsb == LsbValue(addr, 0)
      ensures (forall k :: !fails(k)) ==> board.upper == Upper(addr, Odd(addr), false, false, true, false)
    {
      var addrValues := Unpack(addr, 16);
      AddrPins(addr);
      LastLine(addr);
      var _ := SetAddrLines(addrValues);
      lsb := addrValues[15];
      var _ := SetLsbLine(lsb);
      var _ := SetCtrlLines(false, true, false);
    }

    /** The line changes for quadlet q > 0 of a block write; on failure the lines are idle. */
    method NextWrite(last: bool, lsb0: int, w: Word) returns (ok: bool, lsb: int)
      requires board.Writing()
      modifies this`calls, this`board
      ensures SameDirection(old(board), board) && Grew(old(board), board, true)
      ensures lsb == Complement(lsb0)
      ensures !ok ==> Idle(board.upper)
      ensures (forall k :: !fails(k)) ==>
                var b1 := BlockEndLines(old(board).(outLower := w), last);
                ok && board == b1.Drive(b1.upper.(lsb := lsb != 0))
    {
      lsb := Complement(lsb0);
      var dataValues := Unpack(w, 32);
      DataPins(w);
      var _ := SetDataLines(dataValues);
      ok := StepLsb(last, lsb);
    }

    method StepLsb(last: bool, lsb: int) returns (ok: bool)
      requires board.Writing()
      modifies this`calls, this`board
      ensures SameDirection(old(board), board) && Grew(old(board), board, true)
      ensures !ok ==> Idle(board.upper)
      ensures (forall k :: !fails(k)) ==>
                var b1 := BlockEndLines(old(board), last);
                ok && board == b1.Drive(b1.upper.(lsb := lsb != 0))
    {
      if last {
        var _ := SetCtrlLines(false, false, true);
      }
      ok := SetLsbLine(lsb);
      if !ok {
        CleanUp();
      }
    }

    /** The first quadlet of a block write; on failure the lines are idle. */
    method WriteFirst(addr: Addr, n: nat, ghost sent: seq<Word>) returns (ok: bool, lsb: int)
      requires Idle(board.upper) && board.Writing() && sent != [] && sent[0] == board.outLower
      modifies this`calls, this`board
      ensures SameDirection(old(board), board) && Grew(old(board), board, true)
      ensures lsb == LsbValue(addr, 0)
      ensures !ok ==> Idle(board.upper)
      ensures ok ==> board.done
      ensures old(Sound()) ==> (ok <==> Timely(old(board), Started(addr, 1)))
      ensures old(Sound()) && ok ==> Wrote(old(board), board, addr, n, 1, sent)
    {
      ghost var b0, live := board, Sound();
      lsb := BeginWrite(addr);
      if live {
        FirstLaunch(b0, addr, n, sent);
        WroteNext(b0, board, addr, n, 0, sent);
        InTime(b0, board, addr, n, 0, sent);
      }
      ok := WaitOpDone();
      if !ok {
        CleanUp();
      }
    }

    /** One pass through the loop of WriteBlock; on failure the lines are idle. */
    method WriteOne(addr: Addr, n: nat, q: nat, lsb0: int, w: Word,
                    ghost b0: Board, ghost live: bool, ghost sent: seq<Word>)
      returns (ok: bool, lsb: int)
      requires 1 <= q < n == |sent| && board.Writing() && SameDirection(b0, board)
      requires lsb0 == LsbValue(addr, q - 1) && sent[q] == w
      requires live ==> NoFailure() && Wrote(b0, board, addr, n, q, sent) && Timely(b0, Started(addr, q))
      modifies this`calls, this`board
      ensures SameDirection(old(board), board) && Grew(old(board), board, true)
      ensures lsb == LsbValue(addr, q)
      ensures !ok ==> Idle(board.upper)
      ensures ok ==> board.done
      ensures live ==> (ok <==> Timely(b0, Started(addr, q + 1)))
      ensures live && ok ==> Wrote(b0, board, addr, n, q + 1, sent)
    {
      if live {
        Launch(b0, board.(outLower := w), addr, n, q, sent);
      }
      ok, lsb := NextWrite(q == n - 1, lsb0, w);
      if !ok { return; }
      if live {
        WroteNext(b0, board, addr, n, q, sent);
        InTime(b0, board, addr, n, q, sent);
      }
      ok := WaitOpDone();
      if !ok {
        CleanUp();
      }
    }

    /** WriteBlock with its error exits. Without failures an even block leaves the register
        file as single writes of the words sent would; an odd one writes only the first. */
    method WriteBlock(addr: Addr, data: seq<Word>, nBytes: nat) returns (ok: bool)
      requires Valid() && nBytes < 0x1_0000_0000 && AtLeastOne(Quads(nBytes)) <= |data|
      modifies this
      ensures Valid() && SameFirmware(old(board), board) && Grew(old(board), board, true)
      ensures old(board).version < 1 ==> !ok && board == old(board)
      ensures ok ==> board.done && !isInput
      ensures old(Sound()) && old(board).version >= 1 ==>
                !isInput && (ok <==> Timely(old(board), Started(addr, AtLeastOne(Quads(nBytes)))))
      ensures old(Sound()) && ok ==>
                var n := AtLeastOne(Quads(nBytes));
                var sent := Sent(Swapped(data[..n]), old(isInput), old(board).outLower);
                WriteDone(old(board), board, addr, Quads(nBytes), sent)
    {
      if board.version < 1 { return false; }
      var nQuads := Quads(nBytes);
      var val := Bswap(data[0]);
      var dataValues := Unpack(val, 32);
      DataPins(val);
      if isInput {
        ok := SetOutput(dataValues);
        if !ok { return; }
      }
      ghost var sent := Sent(Swapped(data[..AtLeastOne(nQuads)]), old(isInput), old(board).outLower);
      ok := WriteQuads(addr, data, nQuads, sent);
    }

    method WriteQuads(addr: Addr, data: seq<Word>, nQuads: nat, ghost sent: seq<Word>) returns (ok: bool)
      requires Idle(board.upper) && board.Writing()
      requires |sent| == AtLeastOne(nQuads) <= |data| && sent[0] == board.outLower
      requires forall q :: 1 <= q < nQuads ==> sent[q] == Bswap(data[q])
      modifies this`calls, this`board
      ensures SameDirection(old(board), board) && Idle(board.upper) && Grew(old(board), board, true)
      ensures ok ==> board.done
      ensures old(Sound()) ==> (ok <==> Timely(old(board), Started(addr, AtLeastOne(nQuads))))
      ensures old(Sound()) && ok ==> WriteDone(old(board), board, addr, nQuads, sent)
    {
      ghost var b0, live := board, Sound();
      var lsb;
      ok, lsb := WriteFirst(addr, nQuads, sent);
      if !ok { return; }
      for q := 1 to AtLeastOne(nQuads)
        invariant SameDirection(b0, board) && Grew(b0, board, true)
        invariant lsb == LsbValue(addr, q - 1) && board.done
        invariant live ==> Wrote(b0, board, addr, nQuads, q, sent) && Timely(b0, Started(addr, q))
      {
        ok, lsb := WriteOne(addr, nQuads, q, lsb, Bswap(data[q]), b0, live, sent);
        if !ok { return; }
      }
      CleanUp();
      return true;
    }
  }

  /** Progress of a block write without failures: q quadlets are through. */
  ghost predicate Wrote(b0: Board, b: Board, base: Addr, n: nat, q: nat, sent: seq<Word>)
    requires 1 <= q <= |sent|
  {
    && Ready(b0, b, base, n, q) && b.outLower == sent[q - 1]
    && b.regs == WriteSeq(b0.regs, base, sent[..Started(base, q)])
    && b.events == b0.events + GpiodEvents(true, base, n, sent, q)
  }

  lemma WroteNext(b0: Board, b: Board, base: Addr, n: nat, q: nat, sent: seq<Word>)
    requires q < |sent| && b0.Writing() && Launched(b0, b, base, n, q + 1) && b.busy == (q == 0 || !Odd(base))
    requires b.outLower == sent[q] && b.regs == WriteSeq(b0.regs, base, sent[..Started(base, q)])
    requires b.events == b0.events + GpiodEvents(true, base, n, sent, q + 1)
    ensures Wrote(b0, if b.busy then b.Complete() else b, base, n, q + 1, sent)
  {
    Answered(b0, b, base, n, q + 1);
    WriteSeqLast(b0.regs, base, sent[..q], sent[q]);
    assert sent[..q] + [sent[q]] == sent[..q + 1];
  }

  ghost predicate WriteDone(b0: Board, b: Board, base: Addr, n: nat, sent: seq<Word>)
    requires |sent| == AtLeastOne(n)
  {
    && !b.busy && b.outLower == sent[|sent| - 1]
    && b.regs == WriteSeq(b0.regs, base, sent[..Started(base, |sent|)])
    && b.events == b0.events + GpiodEvents(true, base, n, sent, |sent|)
  }

  /** Progress of a block read without failures: before quadlet 0 its operation has been
      started, later all operations so far are complete. */
  ghost predicate Reading(b0: Board, b: Board, base: Addr, n: nat, q: nat)
    requires q <= n
  {
    && b.regs == b0.regs && b.outLower == b0.outLower
    && (if q == 0 then Launched(b0, b, base, n, 1) && b.busy
        else Ready(b0, b, base, n, q) && b.rdata == b.regs(b.addr))
    && b.events == b0.events + GpiodEvents(false, base, n, Quiet(AtLeastOne(n)), if q == 0 then 1 else q)
  }

  /** The first `q` cells of a buffer hold what a block read from `base` finds. */
  ghost predicate Fetched(regs: Registers, base: Addr, data: seq<Word>, q: nat) {
    q <= |data| && forall k :: 0 <= k < q ==> data[k] == Bswap(regs(Advance(base, Started(base, k + 1) - 1)))
  }

  lemma FetchedMore(regs: Registers, base: Addr, data: seq<Word>, q: nat, w: Word)
    requires q < |data| && Fetched(regs, base, data, q)
    requires w == Bswap(regs(Advance(base, Started(base, q + 1) - 1)))
    ensures Fetched(regs, base, data[q := w], q + 1)
  {
  }

  lemma Behind(data: seq<Word>, q: nat, w: Word, n: nat)
    requires q < n <= |data|
    ensures data[q := w][n..] == data[n..]
  {
  }

  ghost predicate ReadDone(b0: Board, b: Board, base: Addr, n: nat) {
    && b.regs == b0.regs && b.outLower == b0.outLower && (n >= 1 ==> !b.busy)
    && b.events == b0.events + GpiodEvents(false, base, n, Quiet(AtLeastOne(n)), AtLeastOne(n))
  }

  ghost predicate SameDirection(b0: Board, b: Board) {
    SameFirmware(b0, b) && b.dirLower == b0.dirLower && b.enLower == b0.enLower
  }

  /** All operations started between two states go in the same direction. */
  ghost predicate Grew(b0: Board, b: Board, write: bool) {
    && b0.events <= b.events
    && forall k :: |b0.events| <= k < |b.events| ==> b.events[k].write == write
  }

  lemma AddrPins(a: Addr)
    ensures Pins(Lines(a, 16)) == a
  {
    Pow2Sizes();
    PinsOfLines(a, 16);
  }

  lemma LastLine(a: Addr)
    ensures Lines(a, 16)[15] == LsbValue(a, 0)
  {
    assert Bit(a, 0) == a % 2;
  }

  lemma DataPins(w: Word)
    ensures Pins(Lines(w, 32)) == w
  {
    Pow2Sizes();
    PinsOfLines(w, 32);
  }

  ghost predicate Idle(u: Upper) {
    !u.req && !u.wen && !u.blkStart && !u.blkEnd
  }

  lemma BitRange(v: nat)
    ensures forall k: nat :: 0 <= Bit(v, k) <= 1
  {
    forall k: nat ensures 0 <= Bit(v, k) <= 1 { BitRangeAt(v, k); }
  }

  lemma BitRangeAt(v: nat, k: nat)
    ensures 0 <= Bit(v, k) <= 1
  {
    if k > 0 { BitRangeAt(v / 2, k - 1); }
  }
}
