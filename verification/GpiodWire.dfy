/** The operations a gpiod block transfer puts on the wire, and when they are those of the
    memory-mapped driver. */
module GpiodWire {
  import opened ByteOrder
  import opened EmioBoard

  /** The C operator ~ on an int. */
  function Complement(v: int): int {
    -v - 1
  }

  /** The value written to the address-LSB line for quadlet `q` of a block at `base`. */
  function LsbValue(base: Addr, q: nat): int {
    if q == 0 then (if Odd(base) then 1 else 0) else Complement(LsbValue(base, q - 1))
  }

  /** The operations started by the first `q` quadlets of an n-quadlet block: the first by
      req_bus, each later one only if the LSB line really changes. */
  function GpiodEvents(write: bool, base: Addr, n: nat, words: seq<Word>, q: nat): seq<Event>
    requires 1 <= q <= |words|
  {
    if q == 1 then [Event(write, base, Odd(base), true, false, words[0])]
    else
      var high := LsbValue(base, q - 1) != 0;
      var before := GpiodEvents(write, base, n, words, q - 1);
      if high != (LsbValue(base, q - 2) != 0)
      then before + [Event(write, base, high, q != n, q == n, words[q - 1])]
      else before
  }

  /** How many operations those are. */
  function Started(base: Addr, q: nat): nat {
    if Odd(base) then (if q == 0 then 0 else 1) else q
  }

  /** From 0 the complement alternates between 0 and -1; from 1, between 1 and -2, so an
      odd start never lowers the line. */
  lemma {:induction false} LsbLine(base: Addr, q: nat)
    ensures LsbValue(base, q) == if Odd(base) then (if q % 2 == 0 then 1 else -2) else if q % 2 == 0 then 0 else -1
  {
    if q > 0 {
      LsbLine(base, q - 1);
    }
  }

  lemma {:induction false} OddStart(write: bool, base: Addr, n: nat, words: seq<Word>, q: nat)
    requires 1 <= q <= |words| && Odd(base)
    ensures |GpiodEvents(write, base, n, words, q)| == 1
  {
    if q > 1 {
      LsbLine(base, q - 1);
      LsbLine(base, q - 2);
      OddStart(write, base, n, words, q - 1);
    }
  }

  lemma {:induction false} EventCount(write: bool, base: Addr, n: nat, words: seq<Word>, q: nat)
    requires 1 <= q <= |words|
    ensures |GpiodEvents(write, base, n, words, q)| == Started(base, q)
  {
    if q > 1 {
      LsbLine(base, q - 1);
      LsbLine(base, q - 2);
      EventCount(write, base, n, words, q - 1);
    }
  }

  lemma {:induction false} EvenStart(write: bool, base: Addr, n: nat, words: seq<Word>, q: nat)
    requires 1 <= q <= n == |words| && n >= 2 && !Odd(base)
    ensures var es := GpiodEvents(write, base, n, words, q);
            |es| == q && forall k :: 0 <= k < q ==> es[k] == BlockEvent(write, base, n, k, words[k])
  {
    if q > 1 {
      LsbLine(base, q - 1);
      LsbLine(base, q - 2);
      EvenStart(write, base, n, words, q - 1);
    }
  }

  /** The words a gpiod block write really puts on the data lines: the first one only if
      the lines were inputs before, otherwise what was left on them. */
  function Sent(words: seq<Word>, wasInput: bool, left: Word): (sent: seq<Word>)
    requires words != []
    ensures |sent| == |words|
  {
    if wasInput then words else words[0 := left]
  }

  function Quiet(n: nat): (words: seq<Word>)
    ensures |words| == n && forall k :: 0 <= k < n ==> words[k] == 0
  {
    seq(n, _ => 0)
  }

  /** The buffer a block write looks at: quadlet 0 is read even when n is 0. */
  function AtLeastOne(n: nat): nat {
    if n == 0 then 1 else n
  }

  /** Reads: the gpiod and the memory-mapped driver start the same operations exactly for
      blocks of two or more quadlets at an even address. */
  lemma SameReadsOnTheWire(base: Addr, n: nat)
    ensures GpiodEvents(false, base, n, Quiet(AtLeastOne(n)), AtLeastOne(n)) == ReadEvents(base, n)
            <==> n >= 2 && !Odd(base)
  {
    var words := Quiet(AtLeastOne(n));
    if n >= 2 && !Odd(base) {
      EvenStart(false, base, n, words, n);
    } else if n >= 2 {
      OddStart(false, base, n, words, n);
    } else {
      var es := GpiodEvents(false, base, n, words, 1);
      assert es[0].blkStart;
      assert n == 1 ==> !ReadEvents(base, n)[0].blkStart;
    }
  }

  /** Writes: in addition the first word must be on the lines, because the lines were
      inputs before the call or because it was left there. */
  lemma SameWritesOnTheWire(base: Addr, words: seq<Word>, wasInput: bool, left: Word)
    requires words != []
    ensures GpiodEvents(true, base, |words|, Sent(words, wasInput, left), |words|) == WriteEvents(base, words)
            <==> |words| >= 2 && !Odd(base) && (wasInput || left == words[0])
  {
    var n, sent := |words|, Sent(words, wasInput, left);
    if n >= 2 && !Odd(base) {
      EvenStart(true, base, n, sent, n);
      assert WriteEvents(base, words)[0].data == words[0];
      assert GpiodEvents(true, base, n, sent, n)[0].data == sent[0];
    } else if n >= 2 {
      OddStart(true, base, n, sent, n);
    } else {
      var es := GpiodEvents(true, base, n, sent, 1);
      assert es[0].blkStart;
      assert !WriteEvents(base, words)[0].blkStart;
    }
  }

  // ----- progress of a block transfer on the lines

  /** Quadlets 0..q-1 of the block are through: req_bus is up and op_done is set. */
  ghost predicate Ready(b0: Board, b: Board, base: Addr, n: nat, q: nat)
    requires q >= 1
  {
    && !b.busy && b.done && b.addr == Advance(base, Started(base, q) - 1)
    && b.upper == Upper(base, LsbValue(base, q - 1) != 0, true, false, b.upper.blkStart, b.upper.blkEnd)
    && (q < n ==> b.upper.blkStart && !b.upper.blkEnd)
    && b.dirLower == b0.dirLower && b.enLower == b0.enLower && SameFirmware(b0, b)
  }

  /** The lines have been set for quadlet q; what remains is to wait for op_done. */
  ghost predicate Launched(b0: Board, b: Board, base: Addr, n: nat, q: nat)
    requires q >= 1
  {
    && (b.busy || b.done) && Ready(b0, b.(busy := false, done := true), base, n, q)
    && (b.busy ==> !b.done && |b.events| > 0 && b.wait == b.delay(|b.events| - 1))
  }

  function BlockEndLines(b: Board, last: bool): Board {
    if last then b.(upper := b.upper.(wen := false, blkStart := false, blkEnd := true)) else b
  }

  /** Setting the LSB line for quadlet `q` starts an operation exactly when the block
      began at an even address. */
  lemma Launch(b0: Board, b: Board, base: Addr, n: nat, q: nat, words: seq<Word>)
    requires 1 <= q < n == |words| && Ready(b0, b, base, n, q)
    requires b0.Writing() ==> b.outLower == words[q]
    requires !b0.Writing() ==> words[q] == 0
    ensures var b1 := BlockEndLines(b, q == n - 1);
            var b2 := b1.Drive(b1.upper.(lsb := LsbValue(base, q) != 0));
            && Launched(b0, b2, base, n, q + 1)
            && b2.busy == !Odd(base)
            && b2.regs == b.regs && b2.outLower == b.outLower && (Odd(base) ==> b2.rdata == b.rdata)
            && (b.events == b0.events + GpiodEvents(b0.Writing(), base, n, words, q)
                ==> b2.events == b0.events + GpiodEvents(b0.Writing(), base, n, words, q + 1))
  {
    LsbLine(base, q);
    LsbLine(base, q - 1);
    OddAdvance(base, q - 1);
  }

  /** Raising req_bus starts the first operation at the block's base address. */
  lemma FirstLaunch(b0: Board, base: Addr, n: nat, words: seq<Word>)
    requires words != []
    requires b0.Writing() ==> b0.outLower == words[0]
    requires !b0.Writing() ==> words[0] == 0
    ensures var b := b0.Start(Upper(base, Odd(base), true, false, true, false), base);
            && Launched(b0, b, base, n, 1) && b.busy
            && b.events == b0.events + GpiodEvents(b0.Writing(), base, n, words, 1)
  {
  }

  /** After the wait for op_done all operations so far are complete. */
  lemma Answered(b0: Board, b: Board, base: Addr, n: nat, q: nat)
    requires q >= 1 && Launched(b0, b, base, n, q)
    ensures var b' := if b.busy then b.Complete() else b;
            Ready(b0, b', base, n, q) && b'.events == b.events
  {
  }
}
