/** The EMIO bus as the drivers see it: the GPIO lines they drive, and the FPGA firmware
    that answers. The firmware is not part of the repository; its behaviour here is an
    assumption taken from the drivers' comments:
      - a rising req_bus latches the 16-bit address and starts an operation;
      - a change of the address-LSB line while req_bus is high advances the address by
        one (mod 2^16) and starts another operation;
      - all data lines driven by the processor means write, otherwise read;
      - op_done falls when an operation starts and rises when it completes, after an
        arbitrary number of polls; read data is on the data lines from then on. */
module EmioBoard {
  import opened ByteOrder

  type Addr = a: nat | a < 0x1_0000

  /** The output lines of the upper EMIO word. */
  datatype Upper = Upper(addr: Addr, lsb: bool, req: bool, wen: bool, blkStart: bool, blkEnd: bool)

  const ZERO := Upper(0, false, false, false, false, false)

  /** The wires at the moment the firmware starts an operation (data: 0 for a read). */
  datatype Event = Event(write: bool, base: Addr, lsb: bool, blkStart: bool, blkEnd: bool, data: Word)

  /** Direction and output-enable register value with all 32 bits set. */
  const ALL_LINES := 0xffff_ffff

  /** The FPGA register file: every 16-bit address holds a quadlet. */
  type Registers = Addr -> Word

  function Update(regs: Registers, a: Addr, v: Word): Registers {
    x => if x == a then v else regs(x)
  }

  datatype Board = Board(
    outLower: Word, dirLower: nat, enLower: nat, upper: Upper,    // GPIO output registers
    version: nat, delay: nat -> nat, noise: nat -> Word,          // how this firmware behaves
    regs: Registers, addr: Addr, busy: bool, wait: nat, done: bool, rdata: Word,
    events: seq<Event>)                                           // operations started so far
  {
    predicate Writing() {
      dirLower == ALL_LINES && enLower == ALL_LINES
    }

    /** Drive new values on the upper output lines. */
    function Drive(u: Upper): Board {
      if !upper.req && u.req then Start(u, u.addr)
      else if upper.req && u.req && upper.lsb != u.lsb then Start(u, Next(addr))
      else this.(upper := u)
    }

    /** The firmware starts operation number |events| at address `a`. */
    function Start(u: Upper, a: Addr): Board {
      var w := Writing();
      this.(upper := u, addr := a, busy := true, done := false,
            wait := delay(|events|),
            rdata := noise(|events|),
            events := events + [Event(w, u.addr, u.lsb, u.blkStart, u.blkEnd, if w then outLower else 0)])
    }

    function Complete(): Board {
      if Writing()
      then this.(busy := false, done := true, wait := 0, regs := Update(regs, addr, outLower))
      else this.(busy := false, done := true, wait := 0, rdata := regs(addr))
    }

    /** What one read of the status lines does: the operation in progress moves on. */
    function Poll(): Board {
      if !busy then this
      else if wait == 0 then Complete()
      else this.(wait := wait - 1)
    }

    /** Sampling the data lines makes sense only while they are inputs. */
    function DataIn(): Word
      requires dirLower == 0
    {
      rdata
    }
  }

  /** Polling changes only the state of the operation in progress. */
  ghost predicate Polled(b0: Board, b: Board) {
    b == b0.(busy := b.busy, wait := b.wait, done := b.done, regs := b.regs, rdata := b.rdata)
  }

  ghost predicate SameFirmware(b0: Board, b: Board) {
    b.version == b0.version && b.delay == b0.delay
  }

  // ----- what a sequence of single-quadlet operations does

  /** 16-bit unsigned increment. */
  function Next(a: Addr): Addr {
    if a == 0xffff then 0 else a + 1
  }

  function Advance(a: Addr, n: nat): Addr {
    if n == 0 then a else Next(Advance(a, n - 1))
  }

  lemma {:induction false} AdvanceIsAddition(a: Addr, n: nat)
    ensures Advance(a, n) == (a + n) % 0x1_0000
  {
    if n > 0 {
      AdvanceIsAddition(a, n - 1);
      var m := (a + n - 1) % 0x1_0000;
      assert a + n - 1 == (a + n - 1) / 0x1_0000 * 0x1_0000 + m;
    }
  }

  function ReadSeq(regs: Registers, a: Addr, n: nat): (values: seq<Word>)
    ensures |values| == n
    decreases n
  {
    if n == 0 then [] else [regs(a)] + ReadSeq(regs, Next(a), n - 1)
  }

  function WriteSeq(regs: Registers, a: Addr, values: seq<Word>): Registers
    decreases |values|
  {
    if values == [] then regs else WriteSeq(Update(regs, a, values[0]), Next(a), values[1..])
  }

  lemma {:induction false} AdvanceFront(a: Addr, n: nat)
    ensures Advance(Next(a), n) == Advance(a, n + 1)
  {
    if n > 0 {
      AdvanceFront(a, n - 1);
    }
  }

  lemma {:induction false} ReadSeqLast(regs: Registers, a: Addr, n: nat)
    ensures ReadSeq(regs, a, n + 1) == ReadSeq(regs, a, n) + [regs(Advance(a, n))]
    decreases n
  {
    if n > 0 {
      ReadSeqLast(regs, Next(a), n - 1);
      AdvanceFront(a, n - 1);
    }
  }

  /** Storing the next word behind those already in the buffer. */
  lemma ReadSeqSplice(regs: Registers, a: Addr, q: nat, buffer: seq<Word>)
    requires q < |buffer|
    ensures (ReadSeq(regs, a, q) + buffer[q..])[q := regs(Advance(a, q))] == ReadSeq(regs, a, q + 1) + buffer[q + 1..]
  {
    ReadSeqLast(regs, a, q);
  }

  method Store(data: array<Word>, q: nat, w: Word)
    requires q < data.Length
    modifies data
    ensures data[..] == old(data[..])[q := w]
  {
    data[q] := w;
  }

  lemma {:induction false} WriteSeqLast(regs: Registers, a: Addr, values: seq<Word>, v: Word)
    ensures WriteSeq(regs, a, values + [v]) == Update(WriteSeq(regs, a, values), Advance(a, |values|), v)
    decreases |values|
  {
    if values == [] {
      assert (values + [v])[1..] == [];
    } else {
      WriteSeqLast(Update(regs, a, values[0]), Next(a), values[1..], v);
      assert (values + [v])[1..] == values[1..] + [v];
      AdvanceFront(a, |values| - 1);
    }
  }

  // ----- the operations a block transfer should start

  predicate Odd(a: Addr) {
    a % 2 == 1
  }

  function BlockEvent(write: bool, base: Addr, n: nat, q: nat, word: Word): Event {
    Event(write, base, Odd(base) != (q % 2 == 1), q + 1 != n, q + 1 == n, word)
  }

  /** The LSB line alternates and blk_end is up exactly for the last quadlet. */
  function ReadEvents(base: Addr, n: nat): (es: seq<Event>)
    ensures |es| == n
  {
    seq(n, q requires 0 <= q < n => BlockEvent(false, base, n, q, 0))
  }

  function WriteEvents(base: Addr, words: seq<Word>): (es: seq<Event>)
    ensures |es| == |words|
  {
    seq(|words|, q requires 0 <= q < |words| => BlockEvent(true, base, |words|, q, words[q]))
  }

  lemma ReadEventsTake(base: Addr, n: nat, q: nat)
    requires q < n
    ensures ReadEvents(base, n)[..q + 1] == ReadEvents(base, n)[..q] + [BlockEvent(false, base, n, q, 0)]
  {
  }

  lemma WriteEventsTake(base: Addr, words: seq<Word>, q: nat)
    requires q < |words|
    ensures WriteEvents(base, words)[..q + 1] ==
            WriteEvents(base, words)[..q] + [BlockEvent(true, base, |words|, q, words[q])]
  {
  }

  lemma OddNext(a: Addr)
    ensures Odd(Next(a)) == !Odd(a)
  {
  }

  /** The low bit of the advanced address is the LSB line of the block protocol. */
  lemma {:induction false} OddAdvance(a: Addr, n: nat)
    ensures Odd(Advance(a, n)) == (Odd(a) != (n % 2 == 1))
  {
    if n > 0 {
      OddAdvance(a, n - 1);
      OddNext(Advance(a, n - 1));
    }
  }

  /** The lines during a block transfer. */
  function BlockLines(base: Addr, lsb: bool, last: bool): Upper {
    Upper(base, lsb, true, false, !last, last)
  }

  /** Where a block transfer that began on board `b0` stands after `q` of its quadlets. */
  ghost predicate InBlock(b0: Board, b: Board, base: Addr, q: nat) {
    && b.dirLower == b0.dirLower && b.enLower == b0.enLower
    && (q == 0 ==> b.upper == ZERO)
    && (q > 0 ==> b.upper.req && b.addr == Advance(base, q - 1) && b.upper.lsb == Odd(b.addr))
  }

  /** Driving the lines for quadlet `q` always starts an operation, and it starts at the
      address a single-quadlet transfer would use. */
  lemma BlockStep(b0: Board, b: Board, base: Addr, q: nat, last: bool)
    requires InBlock(b0, b, base, q)
    ensures var u := BlockLines(base, Odd(Advance(base, q)), last);
            && b.Drive(u) == b.Start(u, Advance(base, q))
            && InBlock(b0, b.Start(u, Advance(base, q)), base, q + 1)
            && u.lsb == (Odd(base) != (q % 2 == 1))
  {
    assert Odd(Advance(base, q)) == (Odd(base) != (q % 2 == 1)) by { OddAdvance(base, q); }
    if q > 0 {
      assert Odd(Advance(base, q)) == !Odd(b.addr) by { OddNext(b.addr); }
    }
  }

  /** What quadlet `q` of an n-quadlet block does to the board; `live` if the firmware answers. */
  ghost predicate Stepped(b0: Board, b: Board, b': Board, base: Addr, n: nat, q: nat, live: bool) {
    && InBlock(b0, b', base, q + 1) && SameFirmware(b, b')
    && b'.events == b.events + [BlockEvent(b0.Writing(), base, n, q, if b0.Writing() then b.outLower else 0)]
    && (live ==> !b'.busy)
    && (live && b0.Writing() ==> b'.regs == Update(b.regs, Advance(base, q), b.outLower))
    && (live && !b0.Writing() ==> b'.regs == b.regs && b'.rdata == b.regs(Advance(base, q)))
  }

  /** A block read that began on board `b0` has sampled `q` of its words. */
  ghost predicate ReadSoFar(b0: Board, b: Board, base: Addr, n: nat, q: nat, live: bool) {
    && q <= n && InBlock(b0, b, base, q) && SameFirmware(b0, b)
    && b.events == b0.events + ReadEvents(base, n)[..q]
    && (live ==> !b.busy && b.regs == b0.regs)
  }

  lemma ReadBegin(b0: Board, base: Addr, n: nat, live: bool)
    requires b0.upper == ZERO && (live ==> !b0.busy)
    ensures ReadSoFar(b0, b0, base, n, 0, live)
  {
  }

  lemma ReadNext(b0: Board, b: Board, b': Board, base: Addr, n: nat, q: nat, live: bool)
    requires q < n && !b0.Writing() && ReadSoFar(b0, b, base, n, q, live) && Stepped(b0, b, b', base, n, q, live)
    ensures ReadSoFar(b0, b', base, n, q + 1, live)
    ensures live ==> b'.rdata == b0.regs(Advance(base, q))
  {
    ReadEventsTake(base, n, q);
    Concatenation(b0.events, ReadEvents(base, n)[..q], [BlockEvent(false, base, n, q, 0)]);
  }

  lemma ReadFinish(b0: Board, b: Board, base: Addr, n: nat, live: bool)
    requires ReadSoFar(b0, b, base, n, n, live)
    ensures SameFirmware(b0, b) && b.dirLower == b0.dirLower && b.enLower == b0.enLower
    ensures b.events == b0.events + ReadEvents(base, n)
    ensures live ==> !b.busy && b.regs == b0.regs
  {
    assert ReadEvents(base, n)[..n] == ReadEvents(base, n);
  }

  /** A block write that began on board `b0` has sent `q` of its words. */
  ghost predicate WroteSoFar(b0: Board, b: Board, base: Addr, words: seq<Word>, q: nat, live: bool) {
    && q <= |words| && InBlock(b0, b, base, q) && SameFirmware(b0, b)
    && b.events == b0.events + WriteEvents(base, words)[..q]
    && (live ==> !b.busy && b.regs == WriteSeq(b0.regs, base, words[..q]))
  }

  lemma WriteNext(b0: Board, b: Board, b': Board, base: Addr, words: seq<Word>, q: nat, live: bool)
    requires q < |words| && b0.Writing() && b.outLower == words[q] && WroteSoFar(b0, b, base, words, q, live)
    requires Stepped(b0, b, b', base, |words|, q, live)
    ensures WroteSoFar(b0, b', base, words, q + 1, live)
  {
    WriteSeqLast(b0.regs, base, words[..q], words[q]);
    assert words[..q] + [words[q]] == words[..q + 1];
    WriteEventsTake(base, words, q);
    Concatenation(b0.events, WriteEvents(base, words)[..q], [BlockEvent(true, base, |words|, q, words[q])]);
  }

  lemma Concatenation(a: seq<Event>, b: seq<Event>, c: seq<Event>)
    ensures a + b + c == a + (b + c)
  {
  }

  /** The C expression (nBytes+3)/4 in 32-bit unsigned arithmetic. */
  function Quads(nBytes: nat): nat {
    ((nBytes + 3) % 0x1_0000_0000) / 4
  }
}
