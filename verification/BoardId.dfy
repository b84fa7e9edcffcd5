/** The rotary-switch test of the manufacturing menu (TestBoardID): a debouncer that
    must see each of the 16 switch positions held long enough. */
module BoardId {
  import opened Arithmetic
  import opened BitField
  import opened BitSet
  import opened WordNumber

  /** A switch position; 16 stands for none yet. */
  type Id = b: nat | b < 16

  /** The switch position carried by bits 27..24 of the status register. */
  function Position(status: bv32): Id {
    FieldNumber(status);
    Number((status & 0x0f000000) >> 24)
  }

  /** It is the number in those four bits, whatever the others are. */
  lemma PositionIs(status: bv32)
    ensures Position(status) == Number(status) / 0x100_0000 % 16
  {
    FieldNumber(status);
  }

  lemma FieldNumber(status: bv32)
    ensures Number((status & 0x0f000000) >> 24) == Number(status) / 0x100_0000 % 16
  {
    Pow32();
    Ones31();
    Down24(status);
    MaskThenShift(status);
    NumberShifted(status, 24);
    NumberMasked(Shr(status, 24), 4);
  }

  lemma MaskThenShift(status: bv32)
    ensures (status & 0x0f000000) >> 24 == And(status >> 24, 0xf)
  {
  }

  lemma SamePosition(x: bv32, y: bv32)
    requires x & 0x0f000000 == y & 0x0f000000
    ensures Position(x) == Position(y)
  {
  }

  function Positions(samples: seq<bv32>): (ids: seq<Id>)
    ensures |ids| == |samples|
  {
    seq(|samples|, i requires 0 <= i < |samples| => Position(samples[i]))
  }

  /** The switchOK word after position `b` has been accepted. */
  function Marked(switchOK: bv32, b: nat): bv32
    requires b < 16
  {
    if !Has(switchOK, b) then switchOK | Mask(b) else switchOK
  }

  /** The 11 positions that end at index `last` are all `b`. */
  ghost predicate HeldUpTo(ids: seq<nat>, last: int, b: nat) {
    10 <= last < |ids| && forall k :: last - 10 <= k <= last ==> ids[k] == b
  }

  /** Some 11 consecutive positions are all `b`. */
  ghost predicate Held(ids: seq<nat>, b: nat) {
    exists last :: HeldUpTo(ids, last, b)
  }

  ghost predicate AllHeld(ids: seq<nat>) {
    forall b :: 0 <= b < 16 ==> Held(ids, b)
  }

  // ----- the bits of switchOK

  lemma EncodesMarked(s: bv32, found: set<nat>, c: nat)
    requires Encodes(s, found) && c < 16
    ensures Encodes(Marked(s, c), found + {c})
  {
    if !Has(s, c) {
      EncodesMore(s, found, c);
    } else {
      assert found + {c} == found;
    }
  }

  /** Bit `b` of switchOK is set exactly when position `b` was held; no other bit is set. */
  ghost predicate Reports(switchOK: bv32, ids: seq<nat>) {
    && switchOK & 0xffff0000 == 0
    && forall b :: 0 <= b < 16 ==> (Has(switchOK, b) <==> Held(ids, b))
  }

  lemma EncodesHeld(s: bv32, found: set<nat>, ids: seq<nat>)
    requires Encodes(s, found)
    requires forall b: nat :: b in found <==> Held(ids, b)
    ensures Reports(s, ids)
  {
  }

  // ----- what the loop variables mean

  /** One more sample adds at most one held position. */
  lemma HeldStep(ids: seq<nat>, n: nat, b: nat)
    requires n < |ids|
    ensures Held(ids[..n + 1], b) <==> Held(ids[..n], b) || HeldUpTo(ids[..n + 1], n, b)
  {
    if Held(ids[..n], b) {
      var last :| HeldUpTo(ids[..n], last, b);
      HeldEarlier(ids, n, last, b);
    }
    if Held(ids[..n + 1], b) {
      var last :| HeldUpTo(ids[..n + 1], last, b);
      HeldEarlier(ids, n, last, b);
    }
  }

  lemma HeldEarlier(ids: seq<nat>, n: nat, last: int, b: nat)
    requires n < |ids|
    ensures last < n ==> (HeldUpTo(ids[..n], last, b) <==> HeldUpTo(ids[..n + 1], last, b))
  {
    assert ids[..n] == ids[..n + 1][..n];
  }

  /** The meaning of the loop variables after `n` samples: `run` is the length of the
      stretch of equal positions that ends there, `found` the positions in switchOK. */
  ghost predicate Tracks(ids: seq<nat>, n: nat, run: nat,
                         found: set<nat>, lastId: nat, prevId: nat, debounce: int)
    requires n <= |ids|
  {
    && (forall b: nat :: b in found <==> Held(ids[..n], b))
    && run <= n
    && (run == 0 <==> n == 0)
    && (forall k :: n - run <= k < n ==> ids[k] == prevId)
    && (run < n ==> ids[n - run - 1] != prevId)
    && (n == 0 ==> prevId == 16 && lastId == 16)
    && (lastId != 16 ==> lastId in found)
    && (prevId != lastId ==> debounce == run - 1 && run <= 10)
  }

  /** The loop body keeps the meaning of the loop variables. */
  lemma TrackStep(ids: seq<nat>, n: nat, run: nat,
                  found: set<nat>, lastId: nat, prevId: nat, debounce: int,
                  run': nat, found': set<nat>, lastId': nat, debounce': int)
    requires n < |ids| && ids[n] != 16
    requires Tracks(ids, n, run, found, lastId, prevId, debounce)
    requires run' == if ids[n] == prevId then run + 1 else 1
    requires var id := ids[n];
             var counted := if id == prevId then Wrap32(debounce + 1) else 0;
             if id != lastId && counted >= 10
             then found' == found + {id} && lastId' == id && debounce' == 0
             else found' == found && lastId' == lastId && debounce' == counted
    ensures Tracks(ids, n + 1, run', found', lastId', ids[n], debounce')
  {
    forall b: nat
      ensures b in found' <==> Held(ids[..n + 1], b)
    {
      HeldStep(ids, n, b);
      LastHeld(ids, n, run', b);
    }
  }

  /** The stretch of equal positions that ends with sample `n` decides whether one is held there. */
  lemma LastHeld(ids: seq<nat>, n: nat, run: nat, b: nat)
    requires n < |ids| && 1 <= run <= n + 1 && (forall k :: n + 1 - run <= k <= n ==> ids[k] == ids[n])
    requires run <= n ==> ids[n - run] != ids[n]
    ensures HeldUpTo(ids[..n + 1], n, b) <==> b == ids[n] && run >= 11
  {
    var t := ids[..n + 1];
    assert t[n] == ids[n] && (run <= n ==> t[n - run] == ids[n - run]);
  }

  /** The variables of the loop in TestBoardID. */
  datatype Vars = Vars(lastId: nat, prevId: nat, debounce: int, switchOK: bv32)

  /** The debounce counter once position `id` has been seen, and whether `id` is accepted. */
  ghost function Counted(v: Vars, id: Id): int {
    if id == v.prevId then Wrap32(v.debounce + 1) else 0
  }

  ghost predicate Accepts(v: Vars, id: Id) {
    id != v.lastId && Counted(v, id) >= 10
  }

  ghost function Step(v: Vars, id: Id): Vars {
    if Accepts(v, id) then Vars(id, id, 0, Marked(v.switchOK, id))
    else Vars(v.lastId, id, Counted(v, id), v.switchOK)
  }

  /** Their values after `n` samples, the length of the last stretch of equal positions, and the
      positions accepted. */
  ghost function After(ids: seq<Id>, n: nat): Vars
    requires n <= |ids|
  {
    if n == 0 then Vars(16, 16, 0, 0) else Step(After(ids, n - 1), ids[n - 1])
  }

  ghost function Stretch(ids: seq<Id>, n: nat): nat
    requires n <= |ids|
  {
    if n == 0 then 0 else if ids[n - 1] == After(ids, n - 1).prevId then Stretch(ids, n - 1) + 1 else 1
  }

  ghost function Accepted(ids: seq<Id>, n: nat): set<nat>
    requires n <= |ids|
  {
    if n == 0 then {}
    else Accepted(ids, n - 1) + if Accepts(After(ids, n - 1), ids[n - 1]) then {ids[n - 1] as nat} else {}
  }

  lemma {:induction false} TracksAfter(ids: seq<Id>, n: nat)
    requires n <= |ids|
    ensures var v := After(ids, n);
            Tracks(ids, n, Stretch(ids, n), Accepted(ids, n), v.lastId, v.prevId, v.debounce)
  {
    if n > 0 {
      var v, v' := After(ids, n - 1), After(ids, n);
      TracksAfter(ids, n - 1);
      assert Accepted(ids, n - 1) + {} == Accepted(ids, n - 1);
      TrackStep(ids, n - 1, Stretch(ids, n - 1), Accepted(ids, n - 1), v.lastId, v.prevId, v.debounce,
                Stretch(ids, n), Accepted(ids, n), v'.lastId, v'.debounce);
    }
  }

  lemma {:induction false} EncodesAfter(ids: seq<Id>, n: nat)
    requires n <= |ids|
    ensures Encodes(After(ids, n).switchOK, Accepted(ids, n))
  {
    if n == 0 {
      EncodesNone();
    } else {
      EncodesAfter(ids, n - 1);
      assert Accepted(ids, n - 1) + {} == Accepted(ids, n - 1);
      EncodesMarked(After(ids, n - 1).switchOK, Accepted(ids, n - 1), ids[n - 1]);
    }
  }

  /** So switchOK reports the positions held, and is full exactly when all have been. */
  lemma Verdict(ids: seq<Id>, n: nat)
    requires n <= |ids|
    ensures Reports(After(ids, n).switchOK, ids[..n])
    ensures After(ids, n).switchOK == 0xffff <==> AllHeld(ids[..n])
  {
    TracksAfter(ids, n);
    EncodesAfter(ids, n);
    EncodesAll(After(ids, n).switchOK, Accepted(ids, n));
    EncodesHeld(After(ids, n).switchOK, Accepted(ids, n), ids[..n]);
  }

  lemma AfterNext(samples: seq<bv32>, n: nat, v: Vars, v': Vars)
    requires n < |samples| && v == After(Positions(samples), n) && v' == Step(v, Position(samples[n]))
    ensures After(Positions(samples), n + 1) == v'
  {
  }

  /** After fewer than `n` samples switchOK was not full. */
  ghost predicate Unfinished(ids: seq<Id>, n: nat)
    requires n <= |ids|
  {
    n > 0 ==> After(ids, n - 1).switchOK != 0xffff && Unfinished(ids, n - 1)
  }

  lemma UnfinishedNext(ids: seq<Id>, n: nat)
    requires n < |ids| && Unfinished(ids, n) && After(ids, n).switchOK != 0xffff
    ensures Unfinished(ids, n + 1)
  {
  }

  lemma {:induction false} UnfinishedAt(ids: seq<Id>, n: nat, m: nat)
    requires m < n <= |ids| && Unfinished(ids, n)
    ensures After(ids, m).switchOK != 0xffff
  {
    if m < n - 1 {
      UnfinishedAt(ids, n - 1, m);
    }
  }

  /** One pass through the loop of TestBoardID. */
  method Sample(boardId: Id, lastId0: nat, prevId0: nat, debounce0: int, switchOK0: bv32)
    returns (lastId: nat, prevId: nat, debounce: int, switchOK: bv32)
    ensures Vars(lastId, prevId, debounce, switchOK) == Step(Vars(lastId0, prevId0, debounce0, switchOK0), boardId)
  {
    lastId, prevId, debounce, switchOK := lastId0, prevId0, debounce0, switchOK0;
    if boardId == prevId {
      debounce := Wrap32(debounce + 1);
    } else {
      prevId := boardId;
      debounce := 0;
    }
    if boardId != lastId && debounce >= 10 {
      switchOK := Marked(switchOK, boardId);
      lastId := boardId;
      debounce := 0;
    }
  }

  /** TestBoardID over a finite stretch of status-register samples: `done` says that the
      loop left on its own, `used` how many samples it took. The reported bits are exactly
      the positions held for 11 consecutive samples, and the loop ends at the first sample
      after which all 16 positions have been held. */
  method TestBoardId(samples: seq<bv32>) returns (done: bool, used: nat, switchOK: bv32)
    ensures used <= |samples|
    ensures Reports(switchOK, Positions(samples)[..used])
    ensures done <==> AllHeld(Positions(samples)[..used])
    ensures forall n :: 0 <= n < used ==> !AllHeld(Positions(samples)[..n])
    ensures !done ==> used == |samples|
  {
    switchOK := 0;
    var lastId: nat, prevId: nat, debounce := 16, 16, 0;
    used := 0;
    ghost var ids := Positions(samples);
    while switchOK != 0xffff && used < |samples|
      invariant used <= |samples|
      invariant Vars(lastId, prevId, debounce, switchOK) == After(ids, used)
      invariant Unfinished(ids, used)
      decreases |samples| - used
    {
      ghost var v := After(ids, used);
      UnfinishedNext(ids, used);
      lastId, prevId, debounce, switchOK := Sample(Position(samples[used]), lastId, prevId, debounce, switchOK);
      AfterNext(samples, used, v, Vars(lastId, prevId, debounce, switchOK));
      used := used + 1;
    }
    Verdicts(ids, used);
    done := switchOK == 0xffff;
  }

  lemma Verdicts(ids: seq<Id>, used: nat)
    requires used <= |ids| && Unfinished(ids, used)
    ensures Reports(After(ids, used).switchOK, ids[..used])
    ensures After(ids, used).switchOK == 0xffff <==> AllHeld(ids[..used])
    ensures forall n :: 0 <= n < used ==> !AllHeld(ids[..n])
  {
    Verdict(ids, used);
    forall n | 0 <= n < used ensures !AllHeld(ids[..n]) {
      UnfinishedAt(ids, used, n);
      Verdict(ids, n);
    }
  }
}
