/** Runs of arbitrarily many driver calls, and the copy of a byte buffer into the FPGA's
    PROM registers. */
module EmioRuns {
  import opened ByteOrder
  import opened EmioBoard
  import EmioGpiod
  import EmioMmap
  import EmioStandalone
  import opened GpiodWire

  datatype Call =
    | ReadQuadlet(addr: Addr)
    | WriteQuadlet(addr: Addr, word: Word)
    | ReadBlock(addr: Addr, n: nat)
    | WriteBlock(addr: Addr, words: seq<Word>)
  {
    /** Block lengths fit the drivers' unsigned byte count. */
    predicate Sized() {
      && (ReadBlock? ==> n < 0x4000_0000)
      && (WriteBlock? ==> |words| < 0x4000_0000)
    }

    /** Every call but an empty block read, which leaves its operation running. */
    predicate Full() {
      ReadBlock? ==> n > 0
    }

    predicate Writes() {
      WriteQuadlet? || WriteBlock?
    }

    /** Block transfers need version 1 of the bus interface. */
    predicate Supported(version: nat) {
      version >= 1 || ReadQuadlet? || WriteQuadlet?
    }

    function Events(version: nat): seq<Event> {
      if !Supported(version) then []
      else
        match this
        case ReadQuadlet(a) => [Event(false, a, false, false, false, 0)]
        case WriteQuadlet(a, w) => [Event(true, a, false, false, false, w)]
        case ReadBlock(a, n) => ReadEvents(a, n)
        case WriteBlock(a, ws) => WriteEvents(a, Swapped(ws))
    }

    function After(version: nat, regs: Registers): Registers {
      if !Supported(version) then regs
      else
        match this
        case ReadQuadlet(_) => regs
        case WriteQuadlet(a, w) => Update(regs, a, w)
        case ReadBlock(_, _) => regs
        case WriteBlock(a, ws) => WriteSeq(regs, a, Swapped(ws))
    }

    function Answer(version: nat, regs: Registers): Reply {
      if !Supported(version) then Refused
      else
        match this
        case ReadQuadlet(a) => Done([regs(a)])
        case WriteQuadlet(_, _) => Done([])
        case ReadBlock(a, n) => Done(Swapped(ReadSeq(regs, a, n)))
        case WriteBlock(_, _) => Done([])
    }
  }

  /** What a call returns: false, or true with the words read. */
  datatype Reply = Refused | Done(words: seq<Word>)

  function AllEvents(version: nat, calls: seq<Call>): seq<Event> {
    if calls == [] then []
    else AllEvents(version, calls[..|calls| - 1]) + calls[|calls| - 1].Events(version)
  }

  function AfterAll(version: nat, regs: Registers, calls: seq<Call>): Registers {
    if calls == [] then regs
    else calls[|calls| - 1].After(version, AfterAll(version, regs, calls[..|calls| - 1]))
  }

  function Answers(version: nat, regs: Registers, calls: seq<Call>): (r: seq<Reply>)
    ensures |r| == |calls|
  {
    if calls == [] then []
    else
      var before := calls[..|calls| - 1];
      Answers(version, regs, before) + [calls[|calls| - 1].Answer(version, AfterAll(version, regs, before))]
  }

  lemma QuadsOf(n: nat)
    requires n < 0x4000_0000
    ensures 4 * n < 0x1_0000_0000 && Quads(4 * n) == n
  {
  }

  method OneMmapCall(d: EmioMmap.Driver, c: Call) returns (answer: Reply)
    requires d.Valid() && c.Sized()
    modifies d
    ensures d.Valid() && SameFirmware(old(d.board), d.board)
    ensures d.board.events == old(d.board).events + c.Events(d.board.version)
    ensures answer.Refused? <==> !c.Supported(d.board.version)
    ensures old(d.InTime()) ==> d.InTime() && d.board.regs == c.After(d.board.version, old(d.board).regs)
    ensures old(d.InTime()) ==> answer == c.Answer(d.board.version, old(d.board).regs)
  {
    match c
    case ReadQuadlet(a) =>
      var ok, w := d.ReadQuadlet(a);
      answer := if ok then Done([w]) else Refused;
    case WriteQuadlet(a, w) =>
      var ok := d.WriteQuadlet(a, w);
      answer := if ok then Done([]) else Refused;
    case ReadBlock(a, n) =>
      QuadsOf(n);
      var data := new Word[n];
      var ok := d.ReadBlock(a, data, 4 * n);
      answer := if ok then Done(data[..n]) else Refused;
    case WriteBlock(a, ws) =>
      QuadsOf(|ws|);
      assert ws[..|ws|] == ws;
      var ok := d.WriteBlock(a, ws, 4 * |ws|);
      answer := if ok then Done([]) else Refused;
  }

  lemma OneMore(version: nat, regs: Registers, calls: seq<Call>, i: nat)
    requires i < |calls|
    ensures AllEvents(version, calls[..i + 1]) == AllEvents(version, calls[..i]) + calls[i].Events(version)
    ensures AfterAll(version, regs, calls[..i + 1]) == calls[i].After(version, AfterAll(version, regs, calls[..i]))
    ensures Answers(version, regs, calls[..i + 1]) ==
            Answers(version, regs, calls[..i]) + [calls[i].Answer(version, AfterAll(version, regs, calls[..i]))]
  {
    assert calls[..i + 1][..i] == calls[..i];
  }

  /** Where a run of calls that began on board `b0` stands; `live` if the firmware answers. */
  ghost predicate Served(b0: Board, b: Board, calls: seq<Call>, live: bool, answers: seq<Reply>) {
    && SameFirmware(b0, b) && b.events == b0.events + AllEvents(b0.version, calls)
    && (live ==> b.regs == AfterAll(b0.version, b0.regs, calls) && answers == Answers(b0.version, b0.regs, calls))
  }

  lemma ServedNext(b0: Board, b: Board, b': Board, calls: seq<Call>, i: nat, live: bool,
                   answers: seq<Reply>, answer: Reply)
    requires i < |calls| && Served(b0, b, calls[..i], live, answers)
    requires SameFirmware(b, b') && b'.events == b.events + calls[i].Events(b0.version)
    requires live ==> b'.regs == calls[i].After(b0.version, b.regs) && answer == calls[i].Answer(b0.version, b.regs)
    ensures Served(b0, b', calls[..i + 1], live, answers + [answer])
  {
    OneMore(b0.version, b0.regs, calls, i);
    Concatenation(b0.events, AllEvents(b0.version, calls[..i]), calls[i].Events(b0.version));
  }

  /** Over every sequence of calls the memory-mapped driver keeps its direction shadow and
      idle lines, whatever the firmware does, and puts exactly the expected operations on
      the wire; if the firmware answers in time, the run has the effect and the answers of
      the same calls on a plain register file. Below version 1 of the bus interface the
      block calls, and only they, are refused and do nothing. */
  method RunMmap(d: EmioMmap.Driver, calls: seq<Call>) returns (answers: seq<Reply>)
    requires d.Valid() && forall c :: c in calls ==> c.Sized()
    modifies d
    ensures d.Valid() && |answers| == |calls|
    ensures d.board.events == old(d.board).events + AllEvents(old(d.board).version, calls)
    ensures forall i :: 0 <= i < |calls| ==> (answers[i].Refused? <==> !calls[i].Supported(old(d.board).version))
    ensures old(d.InTime()) ==> d.board.regs == AfterAll(old(d.board).version, old(d.board).regs, calls)
    ensures old(d.InTime()) ==> answers == Answers(old(d.board).version, old(d.board).regs, calls)
  {
    answers := [];
    ghost var b0, live := d.board, d.InTime();
    for i := 0 to |calls|
      invariant d.Valid() && (live ==> d.InTime()) && |answers| == i
      invariant forall k :: 0 <= k < i ==> (answers[k].Refused? <==> !calls[k].Supported(b0.version))
      invariant Served(b0, d.board, calls[..i], live, answers)
    {
      ghost var b := d.board;
      var answer := OneMmapCall(d, calls[i]);
      ServedNext(b0, b, d.board, calls, i, live, answers, answer);
      answers := answers + [answer];
    }
    assert calls[..|calls|] == calls;
  }

  // ----- runs of the gpiod driver

  /** What a gpiod driver that nothing fails leaves between calls: the register file, the
      direction of the data lines and the word last put on them. */
  datatype Wire = Wire(regs: Registers, isInput: bool, out: Word)
  {
    function After(version: nat, c: Call): Wire {
      if !c.Supported(version) then this
      else
        match c
        case ReadQuadlet(_) => this.(isInput := true)
        case WriteQuadlet(a, w) => Wire(Update(regs, a, w), false, w)
        case ReadBlock(_, _) => this.(isInput := true)
        case WriteBlock(a, ws) =>
          var sent := Sent(Swapped(Buffered(ws)), isInput, out);
          Wire(WriteSeq(regs, a, sent[..Started(a, |sent|)]), false, sent[|sent| - 1])
    }

    function Answer(version: nat, c: Call): Reply {
      if !c.Supported(version) then Refused
      else
        match c
        case ReadQuadlet(a) => Done([regs(a)])
        case WriteQuadlet(_, _) => Done([])
        case ReadBlock(a, n) => Done(Found(regs, a, n))
        case WriteBlock(_, _) => Done([])
    }
  }

  /** The words a block write looks at; behind an empty block it finds a 0. */
  function Buffered(ws: seq<Word>): (r: seq<Word>)
    ensures |r| == AtLeastOne(|ws|)
  {
    if ws == [] then [0] else ws
  }

  /** What a gpiod block read finds: from an odd address the first quadlet again and again. */
  function Found(regs: Registers, a: Addr, n: nat): (r: seq<Word>)
    ensures |r| == n
  {
    seq(n, k requires 0 <= k < n => FoundAt(regs, a, k))
  }

  function FoundAt(regs: Registers, a: Addr, k: nat): Word {
    Bswap(regs(Advance(a, Started(a, k + 1) - 1)))
  }

  function WireAfter(version: nat, wire: Wire, calls: seq<Call>): Wire {
    if calls == [] then wire
    else WireAfter(version, wire, calls[..|calls| - 1]).After(version, calls[|calls| - 1])
  }

  function WireAnswers(version: nat, wire: Wire, calls: seq<Call>): (r: seq<Reply>)
    ensures |r| == |calls|
  {
    if calls == [] then []
    else
      var before := calls[..|calls| - 1];
      WireAnswers(version, wire, before) + [WireAfter(version, wire, before).Answer(version, calls[|calls| - 1])]
  }

  lemma WireNext(version: nat, wire: Wire, calls: seq<Call>, i: nat)
    requires i < |calls|
    ensures WireAfter(version, wire, calls[..i + 1]) == WireAfter(version, wire, calls[..i]).After(version, calls[i])
    ensures WireAnswers(version, wire, calls[..i + 1]) ==
            WireAnswers(version, wire, calls[..i]) + [WireAfter(version, wire, calls[..i]).Answer(version, calls[i])]
  {
    assert calls[..i + 1][..i] == calls[..i];
  }

  /** The calls that behave on such a wire as on a plain register file: blocks of at most one
      quadlet or from an even address, and of the writes those that have a first word and get
      it onto the lines, because they were inputs or because it was there already. */
  predicate Regular(version: nat, wire: Wire, c: Call) {
    c.Supported(version) ==>
      match c
      case ReadQuadlet(_) => true
      case WriteQuadlet(_, _) => true
      case ReadBlock(a, n) => n <= 1 || !Odd(a)
      case WriteBlock(a, ws) => ws != [] && (|ws| == 1 || !Odd(a)) && (wire.isInput || wire.out == Bswap(ws[0]))
  }

  lemma FoundIsRead(regs: Registers, a: Addr, n: nat)
    requires n <= 1 || !Odd(a)
    ensures Found(regs, a, n) == Swapped(ReadSeq(regs, a, n))
  {
    forall k | 0 <= k < n ensures Found(regs, a, n)[k] == Swapped(ReadSeq(regs, a, n))[k] {
      ReadSeqAt(regs, a, n, k);
    }
  }

  lemma {:induction false} ReadSeqAt(regs: Registers, a: Addr, n: nat, k: nat)
    requires k < n
    ensures ReadSeq(regs, a, n)[k] == regs(Advance(a, k))
    decreases k
  {
    if k > 0 {
      ReadSeqAt(regs, Next(a), n - 1, k - 1);
      AdvanceFront(a, k - 1);
    }
  }

  lemma RegularIsPlain(version: nat, wire: Wire, c: Call)
    requires Regular(version, wire, c)
    ensures wire.After(version, c).regs == c.After(version, wire.regs)
    ensures wire.Answer(version, c) == c.Answer(version, wire.regs)
  {
    if c.Supported(version) {
      match c
      case ReadQuadlet(_) =>
      case WriteQuadlet(_, _) =>
      case ReadBlock(a, n) => FoundIsRead(wire.regs, a, n);
      case WriteBlock(a, ws) =>
        var sent := Sent(Swapped(ws), wire.isInput, wire.out);
        assert sent[..Started(a, |sent|)] == Swapped(ws);
    }
  }

  /** One call behaves as on a plain register file whatever the registers hold. */
  ghost predicate Plain(version: nat, isInput: bool, out: Word, c: Call) {
    forall regs: Registers {:trigger Wire(regs, isInput, out)} ::
      var wire := Wire(regs, isInput, out);
      && wire.Answer(version, c) == c.Answer(version, regs)
      && SameRegisters(wire.After(version, c).regs, c.After(version, regs))
  }

  ghost predicate SameRegisters(r: Registers, s: Registers) {
    forall x :: r(x) == s(x)
  }

  /** A block write so long that it comes back to its first register. */
  predicate Overwritten(c: Call) {
    c.WriteBlock? && |c.words| > 0x1_0000 && !Odd(c.addr)
  }

  /** The condition is exact, but for blocks whose first word is overwritten anyway. */
  lemma PlainIffRegular(version: nat, wire: Wire, c: Call)
    ensures Plain(version, wire.isInput, wire.out, c) <==> Regular(version, wire, c) || Overwritten(c)
  {
    var isInput, out := wire.isInput, wire.out;
    if Regular(version, wire, c) || Overwritten(c) {
      forall regs: Registers
        ensures Wire(regs, isInput, out).Answer(version, c) == c.Answer(version, regs)
        ensures SameRegisters(Wire(regs, isInput, out).After(version, c).regs, c.After(version, regs))
      {
        if Regular(version, wire, c) {
          RegularIsPlain(version, Wire(regs, isInput, out), c);
        } else {
          OverwrittenIsPlain(regs, c.addr, c.words, isInput, out);
        }
      }
    } else if c.ReadBlock? {
      var regs := ReadDiffers(c.addr, c.n);
      assert Wire(regs, isInput, out).Answer(version, c) != c.Answer(version, regs);
    } else {
      var regs, x := WriteDiffers(c.addr, c.words, isInput, out);
      assert Wire(regs, isInput, out).After(version, c).regs(x) != c.After(version, regs)(x);
    }
  }

  /** Registers on which the second quadlet of a block read from an odd address is wrong. */
  lemma ReadDiffers(a: Addr, n: nat) returns (regs: Registers)
    requires n >= 2 && Odd(a)
    ensures Found(regs, a, n) != Swapped(ReadSeq(regs, a, n))
  {
    regs := x => if x == a then 1 else 0;
    SecondWord(regs, a, n);
  }

  lemma SecondWord(regs: Registers, a: Addr, n: nat)
    requires n >= 2 && Odd(a) && regs(a) != regs(Next(a))
    ensures Found(regs, a, n)[1] != Swapped(ReadSeq(regs, a, n))[1]
  {
    ReadSeqAt(regs, a, n, 1);
    assert Advance(a, 1) == Next(Advance(a, 0));
    assert Found(regs, a, n)[1] == FoundAt(regs, a, 1);
    BswapInvolution(regs(a));
    BswapInvolution(regs(Next(a)));
  }

  lemma WriteSeqAt(regs: Registers, a: Addr, ws: seq<Word>, k: nat)
    requires k < |ws| <= 0x1_0000
    ensures WriteSeq(regs, a, ws)(Advance(a, k)) == ws[k]
  {
    ReadBack(regs, a, ws);
    ReadSeqAt(WriteSeq(regs, a, ws), a, |ws|, k);
  }

  lemma {:induction false} WriteSeqSplit(regs: Registers, a: Addr, ws: seq<Word>, m: nat)
    requires m <= |ws|
    ensures WriteSeq(regs, a, ws) == WriteSeq(WriteSeq(regs, a, ws[..m]), Advance(a, m), ws[m..])
    decreases m
  {
    if m > 0 {
      WriteSeqSplit(Update(regs, a, ws[0]), Next(a), ws[1..], m - 1);
      assert ws[1..][..m - 1] == ws[..m][1..] && ws[1..][m - 1..] == ws[m..];
      AdvanceFront(a, m - 1);
    }
  }

  /** Which of n >= 2^16 words from address `a` on is the last one written to `x`. */
  function LastIndex(a: Addr, n: nat, x: Addr): (k: nat)
    requires n >= 0x1_0000
    ensures n - 0x1_0000 <= k < n
  {
    n - 0x1_0000 + (x + 0x1_0000 - Advance(a, n - 0x1_0000)) % 0x1_0000
  }

  lemma Reaches(base: Addr, x: Addr, k: nat)
    requires k == (x + 0x1_0000 - base) % 0x1_0000
    ensures Advance(base, k) == x
  {
    AdvanceIsAddition(base, k);
  }

  lemma LastWord(regs: Registers, a: Addr, ws: seq<Word>, x: Addr)
    requires |ws| >= 0x1_0000
    ensures WriteSeq(regs, a, ws)(x) == ws[LastIndex(a, |ws|, x)]
  {
    var m: nat := |ws| - 0x1_0000;
    var base := Advance(a, m);
    var k := (x + 0x1_0000 - base) % 0x1_0000;
    Reaches(base, x, k);
    WriteSeqSplit(regs, a, ws, m);
    WriteSeqAt(WriteSeq(regs, a, ws[..m]), base, ws[m..], k);
  }

  lemma OverwrittenIsPlain(regs: Registers, a: Addr, ws: seq<Word>, isInput: bool, out: Word)
    requires |ws| > 0x1_0000 && !Odd(a)
    ensures var sent := Sent(Swapped(Buffered(ws)), isInput, out);
            SameRegisters(WriteSeq(regs, a, sent[..Started(a, |sent|)]), WriteSeq(regs, a, Swapped(ws)))
  {
    var words, sent := Swapped(ws), Sent(Swapped(ws), isInput, out);
    assert sent[..Started(a, |sent|)] == sent;
    forall x: Addr ensures WriteSeq(regs, a, sent)(x) == WriteSeq(regs, a, words)(x) {
      LastWord(regs, a, sent, x);
      LastWord(regs, a, words, x);
    }
  }

  /** Registers on which any other block write that is not regular leaves a wrong word, at
      address `x`: in its first register, or from an odd address in its second. */
  lemma WriteDiffers(a: Addr, ws: seq<Word>, isInput: bool, out: Word) returns (regs: Registers, x: Addr)
    requires ws == [] || (|ws| > 1 && Odd(a)) || (!isInput && out != Bswap(ws[0]))
    requires |ws| <= 0x1_0000 || Odd(a)
    ensures var sent := Sent(Swapped(Buffered(ws)), isInput, out);
            WriteSeq(regs, a, sent[..Started(a, |sent|)])(x) != WriteSeq(regs, a, Swapped(ws))(x)
  {
    var words, sent := Swapped(ws), Sent(Swapped(Buffered(ws)), isInput, out);
    if |ws| > 1 && Odd(a) {
      x := Next(a);
      regs := OddWriteDiffers(a, words, sent[0]);
      assert sent[..Started(a, |sent|)] == [sent[0]];
    } else {
      x, regs := a, _ => if sent[0] == 0 then 1 else 0;
      assert sent[..Started(a, |sent|)] == sent && Advance(a, 0) == a;
      WriteSeqAt(regs, a, sent, 0);
      if ws != [] {
        WriteSeqAt(regs, a, words, 0);
      }
    }
  }

  lemma OddWriteDiffers(a: Addr, words: seq<Word>, first: Word) returns (regs: Registers)
    requires |words| > 1
    ensures WriteSeq(regs, a, [first])(Next(a)) != WriteSeq(regs, a, words)(Next(a))
  {
    var word := words[if |words| <= 0x1_0000 then 1 else LastIndex(a, |words|, Next(a))];
    regs := _ => if word == 0 then 1 else 0;
    Untouched(regs, a, [first], Next(a));
    if |words| <= 0x1_0000 {
      assert Advance(a, 1) == Next(Advance(a, 0));
      WriteSeqAt(regs, a, words, 1);
    } else {
      LastWord(regs, a, words, Next(a));
    }
  }

  /** A run of regular calls has the effect and the answers of a plain register file. */
  lemma {:induction false} RegularRun(version: nat, wire: Wire, calls: seq<Call>)
    requires forall i :: 0 <= i < |calls| ==> Regular(version, WireAfter(version, wire, calls[..i]), calls[i])
    ensures WireAfter(version, wire, calls).regs == AfterAll(version, wire.regs, calls)
    ensures WireAnswers(version, wire, calls) == Answers(version, wire.regs, calls)
  {
    if calls != [] {
      var n := |calls| - 1;
      forall i | 0 <= i < n
        ensures Regular(version, WireAfter(version, wire, calls[..n][..i]), calls[..n][i])
      {
        assert calls[..n][..i] == calls[..i];
      }
      RegularRun(version, wire, calls[..n]);
      RegularIsPlain(version, WireAfter(version, wire, calls[..n]), calls[n]);
    }
  }

  ghost function WireOf(d: EmioGpiod.Driver): Wire
    reads d
  {
    Wire(d.board.regs, d.isInput, d.board.outLower)
  }

  /** Nothing fails and no operation is in progress. */
  ghost predicate Live(d: EmioGpiod.Driver)
    reads d
  {
    d.Healthy() && !d.board.busy
  }

  method OneGpiodCall(d: EmioGpiod.Driver, c: Call) returns (answer: Reply)
    requires d.Valid() && c.Sized()
    modifies d
    ensures d.Valid() && SameFirmware(old(d.board), d.board)
    ensures EmioGpiod.Grew(old(d.board), d.board, c.Writes())
    ensures old(Live(d)) && c.Full() ==>
              && Live(d) && WireOf(d) == old(WireOf(d)).After(d.board.version, c)
              && answer == old(WireOf(d)).Answer(d.board.version, c)
  {
    match c
    case ReadQuadlet(a) =>
      var ok, w := d.ReadQuadlet(a);
      answer := if ok then Done([w]) else Refused;
    case WriteQuadlet(a, w) =>
      var ok := d.WriteQuadlet(a, w);
      answer := if ok then Done([]) else Refused;
    case ReadBlock(a, n) =>
      answer := GpiodReadBlock(d, a, n);
    case WriteBlock(a, ws) =>
      answer := GpiodWriteBlock(d, a, ws);
  }

  method GpiodReadBlock(d: EmioGpiod.Driver, a: Addr, n: nat) returns (answer: Reply)
    requires d.Valid() && n < 0x4000_0000
    modifies d
    ensures d.Valid() && SameFirmware(old(d.board), d.board) && EmioGpiod.Grew(old(d.board), d.board, false)
    ensures old(Live(d)) && n > 0 ==>
              && Live(d) && WireOf(d) == old(WireOf(d)).After(d.board.version, ReadBlock(a, n))
              && answer == old(WireOf(d)).Answer(d.board.version, ReadBlock(a, n))
  {
    QuadsOf(n);
    var data := new Word[n];
    ghost var regs := d.board.regs;
    var ok := d.ReadBlock(a, data, 4 * n);
    answer := if ok then Done(data[..]) else Refused;
    assert old(Live(d)) && d.board.version >= 1 ==> data[..] == Found(regs, a, n);
  }

  method GpiodWriteBlock(d: EmioGpiod.Driver, a: Addr, ws: seq<Word>) returns (answer: Reply)
    requires d.Valid() && |ws| < 0x4000_0000
    modifies d
    ensures d.Valid() && SameFirmware(old(d.board), d.board) && EmioGpiod.Grew(old(d.board), d.board, true)
    ensures old(Live(d)) ==>
              && Live(d) && WireOf(d) == old(WireOf(d)).After(d.board.version, WriteBlock(a, ws))
              && answer == old(WireOf(d)).Answer(d.board.version, WriteBlock(a, ws))
  {
    QuadsOf(|ws|);
    var buffer := Buffered(ws);
    assert buffer[..|buffer|] == buffer;
    var ok := d.WriteBlock(a, buffer, 4 * |ws|);
    answer := if ok then Done([]) else Refused;
  }

  function Flatten(trace: seq<seq<Event>>): seq<Event> {
    if trace == [] then [] else Flatten(trace[..|trace| - 1]) + trace[|trace| - 1]
  }

  /** Over every sequence of calls, with libgpiod calls failing and the firmware timing out
      anywhere, the gpiod driver keeps its direction shadow and idle lines; the operations
      on the wire are one stretch per call, each all in that call's direction. If nothing
      fails, the registers, the data lines and the answers are those of `Wire`; an empty
      block read, which leaves its operation running, is the one call that ends this. */
  method RunGpiod(d: EmioGpiod.Driver, calls: seq<Call>) returns (ghost trace: seq<seq<Event>>, answers: seq<Reply>)
    requires d.Valid()
    requires forall c :: c in calls ==> c.Sized()
    modifies d
    ensures d.Valid() && |answers| == |calls|
    ensures |trace| == |calls| && d.board.events == old(d.board).events + Flatten(trace)
    ensures Directed(trace, calls)
    ensures old(Live(d)) && (forall c :: c in calls ==> c.Full()) ==>
              && Live(d) && WireOf(d) == WireAfter(old(d.board).version, old(WireOf(d)), calls)
              && answers == WireAnswers(old(d.board).version, old(WireOf(d)), calls)
  {
    trace, answers := [], [];
    ghost var b0, wire := d.board, WireOf(d);
    ghost var live := Live(d) && forall c :: c in calls ==> c.Full();
    for i := 0 to |calls|
      invariant d.Valid() && |trace| == |answers| == i && SameFirmware(b0, d.board)
      invariant d.board.events == b0.events + Flatten(trace) && Directed(trace, calls)
      invariant live ==> Live(d) && WireOf(d) == WireAfter(b0.version, wire, calls[..i])
      invariant live ==> answers == WireAnswers(b0.version, wire, calls[..i])
    {
      ghost var before := d.board;
      WireNext(b0.version, wire, calls, i);
      var answer := OneGpiodCall(d, calls[i]);
      FlattenMore(b0.events, before, d.board, trace, calls);
      answers := answers + [answer];
      trace := trace + [Traffic(before, d.board)];
    }
    assert calls[..|calls|] == calls;
  }

  /** Every stretch of operations goes in its call's direction. */
  ghost predicate Directed(trace: seq<seq<Event>>, calls: seq<Call>) {
    && |trace| <= |calls|
    && forall i, e :: 0 <= i < |trace| && e in trace[i] ==> e.write == calls[i].Writes()
  }

  lemma FlattenMore(events: seq<Event>, before: Board, after: Board, trace: seq<seq<Event>>, calls: seq<Call>)
    requires Directed(trace, calls) && |trace| < |calls| && before.events == events + Flatten(trace)
    requires EmioGpiod.Grew(before, after, calls[|trace|].Writes())
    ensures after.events == events + Flatten(trace + [Traffic(before, after)])
    ensures Directed(trace + [Traffic(before, after)], calls)
  {
    var stretch := Traffic(before, after);
    FlattenLast(trace, stretch);
    Concatenation(events, Flatten(trace), stretch);
    DirectedMore(trace, calls, stretch);
  }

  lemma FlattenLast(trace: seq<seq<Event>>, stretch: seq<Event>)
    ensures Flatten(trace + [stretch]) == Flatten(trace) + stretch
  {
    assert (trace + [stretch])[..|trace|] == trace;
  }

  lemma DirectedMore(trace: seq<seq<Event>>, calls: seq<Call>, stretch: seq<Event>)
    requires Directed(trace, calls) && |trace| < |calls|
    requires forall e :: e in stretch ==> e.write == calls[|trace|].Writes()
    ensures Directed(trace + [stretch], calls)
  {
  }

  // ----- the two Linux drivers side by side

  /** The operations on the wire between two states. */
  ghost function Traffic(b0: Board, b: Board): seq<Event>
    requires |b0.events| <= |b.events|
  {
    b.events[|b0.events|..]
  }

  lemma TrafficIs(b0: Board, b: Board, es: seq<Event>)
    requires b.events == b0.events + es
    ensures |b0.events| <= |b.events| && Traffic(b0, b) == es
  {
  }

  /** The same block read on both drivers: the wire shows the same exactly for two or more
      quadlets from an even address. */
  method ReadOnBoth(m: EmioMmap.Driver, g: EmioGpiod.Driver, addr: Addr, nBytes: nat)
    requires m.Valid() && m.board.version >= 1 && nBytes < 0x1_0000_0000
    requires g.Valid() && Live(g) && g.board.version >= 1
    modifies m, g
    ensures |old(m.board).events| <= |m.board.events| && |old(g.board).events| <= |g.board.events|
    ensures Traffic(old(m.board), m.board) == Traffic(old(g.board), g.board) <==> Quads(nBytes) >= 2 && !Odd(addr)
  {
    var n := Quads(nBytes);
    var data := new Word[n];
    ghost var m0, g0 := m.board, g.board;
    var _ := m.ReadBlock(addr, data, nBytes);
    var _ := g.ReadBlock(addr, data, nBytes);
    TrafficIs(m0, m.board, ReadEvents(addr, n));
    TrafficIs(g0, g.board, GpiodEvents(false, addr, n, Quiet(AtLeastOne(n)), AtLeastOne(n)));
    SameReadsOnTheWire(addr, n);
  }

  /** The same block write on both drivers: in addition the first word must get onto the
      lines, because they were inputs or because it was there already. */
  method WriteOnBoth(m: EmioMmap.Driver, g: EmioGpiod.Driver, addr: Addr, data: seq<Word>, nBytes: nat)
    requires m.Valid() && m.board.version >= 1 && nBytes < 0x1_0000_0000
    requires g.Valid() && Live(g) && g.board.version >= 1
    requires AtLeastOne(Quads(nBytes)) <= |data|
    modifies m, g
    ensures |old(m.board).events| <= |m.board.events| && |old(g.board).events| <= |g.board.events|
    ensures Traffic(old(m.board), m.board) == Traffic(old(g.board), g.board) <==>
            Quads(nBytes) >= 2 && !Odd(addr) && (old(g.isInput) || old(g.board).outLower == Bswap(data[0]))
  {
    MmapWrites(m, addr, data, nBytes);
    GpiodWrites(g, addr, data, nBytes);
    SameWritesFor(addr, Quads(nBytes), data, old(g.isInput), old(g.board).outLower);
  }

  method MmapWrites(m: EmioMmap.Driver, addr: Addr, data: seq<Word>, nBytes: nat)
    requires m.Valid() && m.board.version >= 1 && nBytes < 0x1_0000_0000 && Quads(nBytes) <= |data|
    modifies m
    ensures |old(m.board).events| <= |m.board.events|
    ensures Traffic(old(m.board), m.board) == WriteEvents(addr, Swapped(data[..Quads(nBytes)]))
  {
    var _ := m.WriteBlock(addr, data, nBytes);
    TrafficIs(old(m.board), m.board, WriteEvents(addr, Swapped(data[..Quads(nBytes)])));
  }

  method GpiodWrites(g: EmioGpiod.Driver, addr: Addr, data: seq<Word>, nBytes: nat)
    requires g.Valid() && Live(g) && g.board.version >= 1 && nBytes < 0x1_0000_0000
    requires AtLeastOne(Quads(nBytes)) <= |data|
    modifies g
    ensures |old(g.board).events| <= |g.board.events|
    ensures Traffic(old(g.board), g.board) ==
            GpiodWriteEvents(addr, Quads(nBytes), data, old(g.isInput), old(g.board).outLower)
  {
    ghost var events := GpiodWriteEvents(addr, Quads(nBytes), data, g.isInput, g.board.outLower);
    var _ := g.WriteBlock(addr, data, nBytes);
    TrafficIs(old(g.board), g.board, events);
  }

  function GpiodWriteEvents(base: Addr, n: nat, data: seq<Word>, wasInput: bool, left: Word): seq<Event>
    requires AtLeastOne(n) <= |data|
  {
    GpiodEvents(true, base, n, Sent(Swapped(data[..AtLeastOne(n)]), wasInput, left), AtLeastOne(n))
  }

  lemma SameWritesFor(base: Addr, n: nat, data: seq<Word>, wasInput: bool, left: Word)
    requires AtLeastOne(n) <= |data|
    ensures GpiodWriteEvents(base, n, data, wasInput, left) == WriteEvents(base, Swapped(data[..n]))
            <==> n >= 2 && !Odd(base) && (wasInput || left == Bswap(data[0]))
  {
    if n == 0 {
      assert GpiodWriteEvents(base, n, data, wasInput, left) != [];
    } else {
      SameWritesOnTheWire(base, Swapped(data[..n]), wasInput, left);
    }
  }

  // ----- the PROM registers

  const PROM: Addr := 0x2000

  /** The quadlets that a PROM copy of `nBytes` bytes writes: rounded up, then cut to 16 bits. */
  function PromQuads(nBytes: nat): nat {
    Quads(nBytes) % 0x1_0000
  }

  /** The first words of a buffer as they go to the PROM registers. */
  function PromWords(memory: seq<Byte>, nQuads: nat): (words: seq<Word>)
    requires 4 * nQuads <= |memory|
    ensures |words| == nQuads
  {
    Swapped(Words(memory[..4 * nQuads]))
  }

  /** WritePromData: the little-endian words of the memory at the buffer, byte-swapped, to
      consecutive PROM registers. For a length that is not a multiple of 4 that memory
      reaches up to three bytes beyond the buffer. */
  method WritePromData(d: EmioMmap.Driver, memory: seq<Byte>, nBytes: nat) returns (ok: bool)
    requires d.Valid() && d.InTime() && nBytes < 0x1_0000_0000 && 4 * PromQuads(nBytes) <= |memory|
    modifies d
    ensures d.Valid() && d.InTime() && ok && SameFirmware(old(d.board), d.board)
    ensures d.board.regs == WriteSeq(old(d.board).regs, PROM, PromWords(memory, PromQuads(nBytes)))
    ensures HoldsProm(d.board.regs, memory, PromQuads(nBytes))
  {
    var nQuads := PromQuads(nBytes);
    ghost var regs, words := d.board.regs, PromWords(memory, nQuads);
    for i := 0 to nQuads
      invariant d.Valid() && d.InTime() && SameFirmware(old(d.board), d.board)
      invariant d.board.regs == WriteSeq(regs, PROM, words[..i])
    {
      var qdata := Bswap(WordAt(memory, i));
      PromNext(regs, memory, nQuads, i);
      ok := d.WriteQuadlet((PROM + i) % 0x1_0000, qdata);
      if !ok { return; }
    }
    assert words[..nQuads] == words;
    PromHolds(regs, memory, nQuads);
    return true;
  }

  /** The PROM registers hold the bytes of the memory, the first byte of each quadlet highest. */
  ghost predicate HoldsProm(regs: Registers, memory: seq<Byte>, nQuads: nat)
    requires 4 * nQuads <= |memory|
  {
    forall i: nat :: i < nQuads ==> PromRegister(regs, memory, i)
  }

  ghost predicate PromRegister(regs: Registers, memory: seq<Byte>, i: nat)
    requires 4 * i + 4 <= |memory|
  {
    var b0: int, b1: int, b2: int, b3: int := memory[4 * i], memory[4 * i + 1], memory[4 * i + 2], memory[4 * i + 3];
    regs((0x2000 + i) % 0x1_0000) == 0x100_0000 * b0 + 0x1_0000 * b1 + 0x100 * b2 + b3
  }

  lemma PromHolds(regs: Registers, memory: seq<Byte>, nQuads: nat)
    requires nQuads < 0x1_0000 && 4 * nQuads <= |memory|
    ensures HoldsProm(WriteSeq(regs, PROM, PromWords(memory, nQuads)), memory, nQuads)
  {
    forall i: nat | i < nQuads
      ensures PromRegister(WriteSeq(regs, PROM, PromWords(memory, nQuads)), memory, i)
    {
      PromWord(memory, nQuads, i);
      WriteSeqAt(regs, PROM, PromWords(memory, nQuads), i);
      AdvanceIsAddition(PROM, i);
      BswapOfBytes(memory[4 * i], memory[4 * i + 1], memory[4 * i + 2], memory[4 * i + 3]);
    }
  }

  lemma PromWord(memory: seq<Byte>, nQuads: nat, i: nat)
    requires i < nQuads && 4 * nQuads <= |memory|
    ensures PromWords(memory, nQuads)[i] == Bswap(WordAt(memory, i))
  {
    SameWord(memory, 4 * nQuads, i);
  }

  lemma SameWord(memory: seq<Byte>, n: nat, i: nat)
    requires 4 * i + 4 <= n <= |memory|
    ensures WordAt(memory[..n], i) == WordAt(memory, i)
  {
  }

  lemma PromNext(before: Registers, memory: seq<Byte>, nQuads: nat, i: nat)
    requires i < nQuads && 4 * nQuads <= |memory|
    ensures var words := PromWords(memory, nQuads);
            Update(WriteSeq(before, PROM, words[..i]), (PROM + i) % 0x1_0000, Bswap(WordAt(memory, i))) ==
            WriteSeq(before, PROM, words[..i + 1])
  {
    PromWord(memory, nQuads, i);
    PromStep(before, PromWords(memory, nQuads), i);
  }

  lemma PromStep(before: Registers, words: seq<Word>, i: nat)
    requires i < |words|
    ensures Update(WriteSeq(before, PROM, words[..i]), (PROM + i) % 0x1_0000, words[i]) ==
            WriteSeq(before, PROM, words[..i + 1])
  {
    AdvanceIsAddition(PROM, i);
    WriteSeqLast(before, PROM, words[..i], words[i]);
    assert words[..i] + [words[i]] == words[..i + 1];
  }

  /** EMIO_WritePromData of the bare-metal library: what the boot loader copies there, Linux
      would have written in the same way. */
  method WritePromStandalone(d: EmioStandalone.Driver, memory: seq<Byte>, nBytes: nat) returns (ok: bool)
    requires d.Valid() && nBytes < 0x1_0000_0000 && 4 * PromQuads(nBytes) <= |memory|
    modifies d
    ensures d.Valid() && ok
    ensures d.board.regs == WriteSeq(old(d.board).regs, PROM, PromWords(memory, PromQuads(nBytes)))
    ensures HoldsProm(d.board.regs, memory, PromQuads(nBytes))
  {
    var nQuads := PromQuads(nBytes);
    ghost var regs, words := d.board.regs, PromWords(memory, nQuads);
    for i := 0 to nQuads
      invariant d.Valid() && d.board.regs == WriteSeq(regs, PROM, words[..i])
    {
      var qdata := Bswap(WordAt(memory, i));
      PromNext(regs, memory, nQuads, i);
      ok := d.WriteQuadlet((PROM + i) % 0x1_0000, qdata);
      if !ok { return; }
    }
    assert words[..nQuads] == words;
    PromHolds(regs, memory, nQuads);
    return true;
  }

  lemma {:induction false} Untouched(regs: Registers, a: Addr, ws: seq<Word>, x: Addr)
    requires forall k :: 0 <= k < |ws| ==> Advance(a, k) != x
    ensures WriteSeq(regs, a, ws)(x) == regs(x)
    decreases |ws|
  {
    if ws != [] {
      assert Advance(a, 0) != x;
      forall k | 0 <= k < |ws| - 1 ensures Advance(Next(a), k) != x {
        AdvanceFront(a, k);
        assert Advance(a, k + 1) != x;
      }
      Untouched(Update(regs, a, ws[0]), Next(a), ws[1..], x);
    }
  }

  /** Up to 2^16 quadlets, what single writes left is what single reads find. */
  lemma {:induction false} ReadBack(regs: Registers, a: Addr, ws: seq<Word>)
    requires |ws| <= 0x1_0000
    ensures ReadSeq(WriteSeq(regs, a, ws), a, |ws|) == ws
    decreases |ws|
  {
    if ws != [] {
      var regs' := Update(regs, a, ws[0]);
      forall k | 0 <= k < |ws| - 1 ensures Advance(Next(a), k) != a {
        AdvanceFront(a, k);
        AdvanceIsAddition(a, k + 1);
      }
      Untouched(regs', Next(a), ws[1..], a);
      ReadBack(regs', Next(a), ws[1..]);
    }
  }

  /** The byte image of what a block read finds after the words of a buffer were written
      is the buffer itself, for every buffer of at most 2^16 quadlets. */
  lemma PromImage(regs: Registers, data: seq<Byte>)
    requires |data| % 4 == 0 && |data| / 4 <= 0x1_0000
    ensures var written := WriteSeq(regs, PROM, Swapped(Words(data)));
            Image(Swapped(ReadSeq(written, PROM, |data| / 4))) == data
  {
    ReadBack(regs, PROM, Swapped(Words(data)));
    SwappedTwice(Words(data));
    ImageOfWords(data);
  }

  /** Writing a buffer of any length below 2^16 quadlets to the PROM registers and reading as
      many bytes back at 0x2000 gives an array whose memory image begins with the buffer. */
  method PromRoundTrip(d: EmioMmap.Driver, memory: seq<Byte>, nBytes: nat) returns (image: seq<Byte>)
    requires d.Valid() && d.InTime() && d.board.version >= 1
    requires nBytes <= 4 * 0xffff && 4 * ((nBytes + 3) / 4) <= |memory|
    modifies d
    ensures d.Valid() && |image| >= nBytes && image[..nBytes] == memory[..nBytes]
    ensures image == memory[..4 * ((nBytes + 3) / 4)]
  {
    var n: nat := (nBytes + 3) / 4;
    PromCount(nBytes);
    PromImage(d.board.regs, memory[..4 * n]);
    var _ := WritePromData(d, memory, nBytes);
    var buffer := new Word[n];
    var _ := d.ReadBlock(PROM, buffer, nBytes);
    image := Image(buffer[..n]);
    Prefix(memory, 4 * n, nBytes);
  }

  lemma PromCount(nBytes: nat)
    requires nBytes <= 4 * 0xffff
    ensures Quads(nBytes) == PromQuads(nBytes) == (nBytes + 3) / 4 <= 0xffff && nBytes <= 4 * ((nBytes + 3) / 4)
  {
  }

  lemma Prefix(memory: seq<Byte>, n: nat, m: nat)
    requires m <= n <= |memory|
    ensures memory[..n][..m] == memory[..m]
  {
  }
}
