/** measure_write_eye: the write-eye sweep, which moves the write delays of all byte lanes in
    the controller's register list, and loads the list into the controller, before each
    nested memory test. */
module WriteEye {
  import opened BitField
  import opened EyeGrid
  import opened EyeSweep
  import opened MemTest
  import opened Patterns
  import opened RegList
  import opened WordNumber

  const BASE := 0xf800_6000
  const R46 := BASE + 0x118
  const R55 := BASE + 0x154
  const R5F := BASE + 0x17C

  /** The address offsets of the 80 entries of ddrc_reg_values. */
  function Column(k: nat): nat
    requires k < 80
  {
    if k <= 18 then 4 * k
    else if k == 19 then 0x50
    else if k <= 25 then 0x58 + 4 * (k - 20)
    else if k <= 33 then 0xA0 + 4 * (k - 26)
    else if k <= 35 then 0xC4 + 4 * (k - 34)
    else if k == 36 then 0xDC
    else if k <= 38 then 0xF0 + 4 * (k - 37)
    else if k <= 43 then 0x114 + 4 * (k - 39)
    else if k <= 47 then 0x12C + 4 * (k - 44)
    else if k <= 51 then 0x140 + 4 * (k - 48)
    else if k <= 55 then 0x154 + 4 * (k - 52)
    else if k <= 59 then 0x168 + 4 * (k - 56)
    else if k <= 63 then 0x17C + 4 * (k - 60)
    else if k <= 65 then 0x190 + 4 * (k - 64)
    else if k <= 74 then 0x204 + 4 * (k - 66)
    else if k <= 78 then 0x2A8 + 4 * (k - 75)
    else 0
  }

  ghost predicate HasColumn(list: seq<Entry>) {
    |list| == 80 && forall k :: 0 <= k < 80 ==> list[k].addr == BASE + Column(k)
  }

  lemma ColumnStep(k: nat)
    requires k < 78
    ensures Column(k) < Column(k + 1)
  {
  }

  lemma {:induction false} ColumnIncreases(l: nat, k: nat)
    requires l < k < 79
    ensures Column(l) < Column(k)
  {
    ColumnStep(k - 1);
    if l < k - 1 {
      ColumnIncreases(l, k - 1);
    }
  }

  /** First-match search finds every entry but the repeated last one at its own index. */
  lemma FindColumn(list: seq<Entry>, k: nat, addr: nat)
    requires HasColumn(list) && k < 79 && addr == BASE + Column(k)
    ensures Find(list, addr) == k
  {
    var i := Find(list, addr);
    assert list[k].addr == addr;
    if i < k {
      ColumnIncreases(i, k);
    }
  }

  lemma LaneColumns(j: nat)
    requires j < 4
    ensures R46 + 4 * j == BASE + Column(40 + j) && R55 + 4 * j == BASE + Column(52 + j)
    ensures R5F + 4 * j == BASE + Column(60 + j)
  {
  }

  /** Where the three registers of lane `j` are in a list. */
  ghost predicate FoundAt(list: seq<Entry>, j: nat) {
    && |list| == 80 && Find(list, R46 + 4 * j) == 40 + j
    && Find(list, R55 + 4 * j) == 52 + j && Find(list, R5F + 4 * j) == 60 + j
  }

  ghost predicate Lanes(list: seq<Entry>) {
    |list| == 80 && forall j :: 0 <= j < 4 ==> FoundAt(list, j)
  }

  lemma FindLanes(list: seq<Entry>)
    requires HasColumn(list)
    ensures Lanes(list)
  {
    forall j | 0 <= j < 4 ensures FoundAt(list, j) {
      LaneColumns(j);
      FindColumn(list, 40 + j, R46 + 4 * j);
      FindColumn(list, 52 + j, R55 + 4 * j);
      FindColumn(list, 60 + j, R5F + 4 * j);
    }
  }

  ghost predicate SameAddrs(a: seq<Entry>, b: seq<Entry>) {
    |a| == |b| && forall k :: 0 <= k < |a| ==> a[k].addr == b[k].addr
  }

  lemma FindSame(a: seq<Entry>, b: seq<Entry>, addr: nat)
    requires SameAddrs(a, b)
    ensures Find(a, addr) == Find(b, addr)
  {
    FindIs(b, addr, Find(a, addr));
  }

  lemma LaneFinds(a: seq<Entry>, b: seq<Entry>, j: nat)
    requires Lanes(a) && SameAddrs(a, b) && j < 4
    ensures FoundAt(b, j)
  {
    assert FoundAt(a, j);
    FindSame(a, b, R46 + 4 * j);
    FindSame(a, b, R55 + 4 * j);
    FindSame(a, b, R5F + 4 * j);
  }

  /** There is no fifth lane: the three addresses after the last lane are not in the list. */
  lemma NoFifthLane(list: seq<Entry>)
    requires HasColumn(list)
    ensures Find(list, R46 + 16) == Find(list, R55 + 16) == Find(list, R5F + 16) == 80
  {
    Absent(list, R46 + 16);
    Absent(list, R55 + 16);
    Absent(list, R5F + 16);
  }

  lemma NotInColumn(k: nat)
    requires k < 80
    ensures Column(k) != 0x128 && Column(k) != 0x164 && Column(k) != 0x18C
  {
  }

  lemma Absent(list: seq<Entry>, addr: nat)
    requires HasColumn(list) && (addr == BASE + 0x128 || addr == BASE + 0x164 || addr == BASE + 0x18C)
    ensures Find(list, addr) == 80
  {
    var i := Find(list, addr);
    if i < 80 {
      NotInColumn(i);
    }
  }

  // ----- the list at a given offset

  /** Field R46[30:24] of lane k - 40 holds the offset, field R5F[9:0] of lane k - 60 the
      strobe ratio R55[9:0] of that lane plus the offset. */
  function Moved(saved: seq<Entry>, i: bv32, k: nat): Entry
    requires k < |saved| == 80
  {
    if 40 <= k < 44 then Entry(saved[k].addr, SetField(saved[k].data, 24, 7, i))
    else if 60 <= k < 64 then
      Entry(saved[k].addr, SetField(saved[k].data, 0, 10, Sum(GetField(saved[k - 8].data, 0, 10), i)))
    else saved[k]
  }

  function Loaded(saved: seq<Entry>, i: bv32): (list: seq<Entry>)
    requires |saved| == 80
    ensures |list| == 80
  {
    seq(80, k requires 0 <= k < 80 => Moved(saved, i, k))
  }

  /** At every sweep step and lane both fields read back as promised: the offset modulo 2^7,
      and the strobe ratio plus the offset modulo 2^10. */
  lemma Coherent(saved: seq<Entry>, i: bv32, j: nat)
    requires Lanes(saved) && j < 4
    ensures Value(Loaded(saved, i), R46 + 4 * j, 24, 7) == And(i, 0x7f)
    ensures Value(Loaded(saved, i), R5F + 4 * j, 0, 10) == And(Sum(Value(saved, R55 + 4 * j, 0, 10), i), 0x3ff)
    ensures Value(Loaded(saved, i), R55 + 4 * j, 0, 10) == Value(saved, R55 + 4 * j, 0, 10)
  {
    LaneFinds(saved, saved, j);
    LaneFinds(saved, Loaded(saved, i), j);
    CoherentAt(saved, i, j);
  }

  lemma CoherentAt(saved: seq<Entry>, i: bv32, j: nat)
    requires j < 4 && FoundAt(saved, j) && FoundAt(Loaded(saved, i), j)
    ensures Value(Loaded(saved, i), R46 + 4 * j, 24, 7) == And(i, 0x7f)
    ensures Value(Loaded(saved, i), R5F + 4 * j, 0, 10) == And(Sum(Value(saved, R55 + 4 * j, 0, 10), i), 0x3ff)
    ensures Value(Loaded(saved, i), R55 + 4 * j, 0, 10) == Value(saved, R55 + 4 * j, 0, 10)
  {
    var list := Loaded(saved, i);
    ValueAt(list, R46 + 4 * j, 40 + j, 24, 7);
    ValueAt(list, R5F + 4 * j, 60 + j, 0, 10);
    ValueAt(list, R55 + 4 * j, 52 + j, 0, 10);
    ValueAt(saved, R55 + 4 * j, 52 + j, 0, 10);
    OffsetMoved(saved, i, j);
    RatioMoved(saved, i, j);
  }

  lemma OffsetMoved(saved: seq<Entry>, i: bv32, j: nat)
    requires j < 4 && |saved| == 80
    ensures GetField(Loaded(saved, i)[40 + j].data, 24, 7) == And(i, 0x7f)
    ensures Loaded(saved, i)[52 + j] == saved[52 + j]
  {
    OffsetField(saved[40 + j].data, i);
  }

  lemma RatioMoved(saved: seq<Entry>, i: bv32, j: nat)
    requires j < 4 && |saved| == 80
    ensures GetField(Loaded(saved, i)[60 + j].data, 0, 10) ==
            And(Sum(GetField(saved[52 + j].data, 0, 10), i), 0x3ff)
  {
    RatioField(saved[60 + j].data, Sum(GetField(saved[52 + j].data, 0, 10), i));
  }

  lemma OffsetField(x: bv32, v: bv32)
    ensures GetField(SetField(x, 24, 7, v), 24, 7) == And(v, 0x7f)
  {
    Ones31();
    FieldRoundTrip(x, 24, 7, v);
  }

  lemma RatioField(x: bv32, v: bv32)
    ensures GetField(SetField(x, 0, 10, v), 0, 10) == And(v, 0x3ff)
  {
    Ones31();
    FieldRoundTrip(x, 0, 10, v);
  }

  /** Every other bit of the list keeps its saved value. */
  lemma OthersKept(saved: seq<Entry>, i: bv32, k: nat)
    requires |saved| == 80 && k < 80
    ensures var x, y := saved[k].data, Loaded(saved, i)[k].data;
            if 40 <= k < 44 then And(y, !(0x7f << 24)) == And(x, !(0x7f << 24))
            else if 60 <= k < 64 then And(y, !0x3ff) == And(x, !0x3ff)
            else y == x
  {
    Ones31();
    Up24(0x7f);
    if 40 <= k < 44 {
      FieldRoundTrip(saved[k].data, 24, 7, i);
    } else if 60 <= k < 64 {
      FieldRoundTrip(saved[k].data, 0, 10, Sum(GetField(saved[k - 8].data, 0, 10), i));
    }
  }

  // ----- moving from one offset to the next

  /** The list is the saved one or a moved one: both absorb a further move. */
  ghost predicate Movable(saved: seq<Entry>, list: seq<Entry>) {
    && Lanes(saved) && SameAddrs(saved, list)
    && (forall k, v :: 40 <= k < 44 ==> SetField(list[k].data, 24, 7, v) == SetField(saved[k].data, 24, 7, v))
    && (forall k, v :: 60 <= k < 64 ==> SetField(list[k].data, 0, 10, v) == SetField(saved[k].data, 0, 10, v))
    && (forall k :: 0 <= k < 80 && !(40 <= k < 44) && !(60 <= k < 64) ==> list[k] == saved[k])
  }

  lemma LoadedMovable(saved: seq<Entry>, i: bv32)
    requires Lanes(saved)
    ensures Movable(saved, Loaded(saved, i))
  {
    var list := Loaded(saved, i);
    forall k, v | 40 <= k < 44 ensures SetField(list[k].data, 24, 7, v) == SetField(saved[k].data, 24, 7, v) {
      FieldAbsorbs(saved[k].data, 24, 7, i, v);
    }
    forall k, v | 60 <= k < 64 ensures SetField(list[k].data, 0, 10, v) == SetField(saved[k].data, 0, 10, v) {
      FieldAbsorbs(saved[k].data, 0, 10, Sum(GetField(saved[k - 8].data, 0, 10), i), v);
    }
  }

  /** The list after lanes 0..j-1 have been moved to offset `i`. */
  ghost predicate MovedTo(saved: seq<Entry>, before: seq<Entry>, list: seq<Entry>, i: bv32, j: nat)
    requires |saved| == |before| == 80
  {
    && |list| == 80
    && forall k :: 0 <= k < 80 ==>
         list[k] == if 40 <= k < 40 + j || 60 <= k < 60 + j then Moved(saved, i, k) else before[k]
  }

  /** One pass through the loop over the lanes. */
  lemma MoveLane(saved: seq<Entry>, before: seq<Entry>, list: seq<Entry>, i: bv32, j: nat)
    requires j < 4 && Movable(saved, before) && MovedTo(saved, before, list, i, j)
    ensures var one := Updated(list, R46 + 4 * j, 24, 7, i);
            var dqs := Value(one, R55 + 4 * j, 0, 10);
            MovedTo(saved, before, Updated(one, R5F + 4 * j, 0, 10, Sum(dqs, i)), i, j + 1)
  {
    MovedAddrs(saved, before, list, i, j);
    LaneFinds(saved, list, j);
    LaneFinds(saved, Updated(list, R46 + 4 * j, 24, 7, i), j);
    MoveLaneAt(saved, before, list, i, j);
  }

  lemma MoveLaneAt(saved: seq<Entry>, before: seq<Entry>, list: seq<Entry>, i: bv32, j: nat)
    requires j < 4 && Movable(saved, before) && MovedTo(saved, before, list, i, j)
    requires FoundAt(list, j) && FoundAt(Updated(list, R46 + 4 * j, 24, 7, i), j)
    ensures var one := Updated(list, R46 + 4 * j, 24, 7, i);
            var dqs := Value(one, R55 + 4 * j, 0, 10);
            MovedTo(saved, before, Updated(one, R5F + 4 * j, 0, 10, Sum(dqs, i)), i, j + 1)
  {
    var one := Updated(list, R46 + 4 * j, 24, 7, i);
    UpdatedAt(list, R46 + 4 * j, 40 + j, 24, 7, i);
    var dqs := Value(one, R55 + 4 * j, 0, 10);
    ValueAt(one, R55 + 4 * j, 52 + j, 0, 10);
    UpdatedAt(one, R5F + 4 * j, 60 + j, 0, 10, Sum(dqs, i));
    LaneMoved(saved, before, list, i, j);
  }

  lemma MovedAddrs(saved: seq<Entry>, before: seq<Entry>, list: seq<Entry>, i: bv32, j: nat)
    requires j < 4 && Movable(saved, before) && MovedTo(saved, before, list, i, j)
    ensures SameAddrs(saved, list)
  {
  }

  lemma LaneMoved(saved: seq<Entry>, before: seq<Entry>, list: seq<Entry>, i: bv32, j: nat)
    requires j < 4 && Movable(saved, before) && MovedTo(saved, before, list, i, j)
    ensures var dqs := GetField(list[52 + j].data, 0, 10);
            MovedTo(saved, before,
                    list[40 + j := Entry(list[40 + j].addr, SetField(list[40 + j].data, 24, 7, i))]
                        [60 + j := Entry(list[60 + j].addr, SetField(list[60 + j].data, 0, 10, Sum(dqs, i)))], i, j + 1)
  {
    assert list[52 + j] == saved[52 + j] && list[40 + j] == before[40 + j] && list[60 + j] == before[60 + j];
    var dqs := GetField(list[52 + j].data, 0, 10);
    MovedBoth(saved, before, list, i, j, Entry(list[40 + j].addr, SetField(list[40 + j].data, 24, 7, i)),
              Entry(list[60 + j].addr, SetField(list[60 + j].data, 0, 10, Sum(dqs, i))));
  }

  lemma MovedBoth(saved: seq<Entry>, before: seq<Entry>, list: seq<Entry>, i: bv32, j: nat, x: Entry, y: Entry)
    requires |saved| == |before| == 80 && j < 4 && MovedTo(saved, before, list, i, j)
    requires x == Moved(saved, i, 40 + j) && y == Moved(saved, i, 60 + j)
    ensures MovedTo(saved, before, list[40 + j := x][60 + j := y], i, j + 1)
  {
  }

  lemma AllMoved(saved: seq<Entry>, before: seq<Entry>, list: seq<Entry>, i: bv32)
    requires Movable(saved, before) && MovedTo(saved, before, list, i, 4)
    ensures list == Loaded(saved, i)
  {
  }

  // ----- loading the list into the controller

  type Hardware = map<nat, bv32>

  /** The registers after the entries of a list have been written in order. */
  function Stored(hw: Hardware, list: seq<Entry>): Hardware {
    if list == [] then hw
    else
      var last := list[|list| - 1];
      Stored(hw, list[..|list| - 1])[last.addr := last.data]
  }

  /** The controller holds every entry of the list but the first, which the last one repeats. */
  ghost predicate InHardware(hw: Hardware, list: seq<Entry>) {
    forall k :: 1 <= k < |list| ==> list[k].addr in hw && hw[list[k].addr] == list[k].data
  }

  lemma ColumnsDiffer(list: seq<Entry>, l: nat, k: nat)
    requires HasColumn(list) && l < k < 80 && (k < 79 || l > 0)
    ensures list[l].addr != list[k].addr
  {
    if k < 79 {
      ColumnIncreases(l, k);
    } else {
      ColumnIncreases(0, l);
    }
  }

  lemma {:induction false} StoredAt(hw: Hardware, list: seq<Entry>, n: nat, k: nat)
    requires HasColumn(list) && k < n <= 80 && (n < 80 || k > 0)
    ensures list[k].addr in Stored(hw, list[..n]) && Stored(hw, list[..n])[list[k].addr] == list[k].data
  {
    assert list[..n][..n - 1] == list[..n - 1] && list[..n][n - 1] == list[n - 1];
    if k < n - 1 {
      StoredAt(hw, list, n - 1, k);
      ColumnsDiffer(list, k, n - 1);
    }
  }

  /** Between its first and its last entry the list leaves the control register as the first
      entry says: if that has the enable bit clear, everything else is written with the
      controller disabled. */
  lemma WrittenDisabled(hw: Hardware, list: seq<Entry>, k: nat)
    requires HasColumn(list) && 1 <= k < 80
    ensures BASE in Stored(hw, list[..k]) && Stored(hw, list[..k])[BASE] == list[0].data
  {
    StoredAt(hw, list, k, 0);
  }

  lemma AllStored(hw: Hardware, list: seq<Entry>)
    requires HasColumn(list)
    ensures InHardware(Stored(hw, list), list)
  {
    assert list[..80] == list;
    forall k | 1 <= k < 80 ensures list[k].addr in Stored(hw, list) && Stored(hw, list)[list[k].addr] == list[k].data {
      StoredAt(hw, list, 80, k);
    }
  }

  lemma LoadedStored(hw: Hardware, saved: seq<Entry>, i: bv32)
    requires HasColumn(saved)
    ensures InHardware(Stored(hw, Loaded(saved, i)), Loaded(saved, i))
  {
    AllStored(hw, Loaded(saved, i));
  }

  // ----- the sweep

  /** What a nested test ran with: its offset, the list and the controller's registers. */
  datatype Load = Load(offset: int, list: seq<Entry>, hw: Hardware)

  /** The list was moved to the offset, and the controller holds it. */
  ghost predicate Right(saved: seq<Entry>, load: Load) {
    && |saved| == 80 && 0 <= load.offset <= 128
    && load.list == Loaded(saved, ToWord(load.offset)) && InHardware(load.hw, load.list)
  }

  /** In numbers: the write delay of lane `j` is the offset, and the data delay is the strobe
      ratio plus the offset, in the list and in the controller. */
  ghost predicate Delayed(saved: seq<Entry>, load: Load, j: nat) {
    && Holding(Delay, load, j, load.offset % 128)
    && Holding(Ratio, load, j, (Number(Value(saved, R55 + 4 * j, 0, 10)) + load.offset) % 1024)
  }

  /** The two fields of a lane that the sweep moves: R46[30:24] and R5F[9:0]. */
  datatype Field = Delay | Ratio

  /** List and controller hold the number `n` in that field of lane `j`. */
  ghost predicate Holding(f: Field, load: Load, j: nat, n: nat) {
    match f
    case Delay => Holds(load, R46 + 4 * j, 24, 7, n)
    case Ratio => Holds(load, R5F + 4 * j, 0, 10, n)
  }

  ghost predicate Holds(load: Load, addr: nat, lsb: nat, width: nat, n: nat) {
    && Number(Value(load.list, addr, lsb, width)) == n
    && addr in load.hw && Number(GetField(load.hw[addr], lsb, width)) == n
  }

  lemma LowSeven(x: bv32, n: nat)
    requires Number(x) == n
    ensures Number(And(x, 0x7f)) == n % 128
  {
    Pow32();
    Ones31();
    NumberMasked(x, 7);
  }

  lemma LowTen(x: bv32, n: nat)
    requires Number(x) == n
    ensures Number(And(x, 0x3ff)) == n % 1024
  {
    Pow32();
    Ones31();
    NumberMasked(x, 10);
  }

  /** The word `i` stands for the offset: alone in seven bits, and added to a ratio in ten. */
  ghost predicate Denotes(i: bv32, offset: nat) {
    && Number(And(i, 0x7f)) == offset % 128
    && forall x :: Number(x) < 1024 ==> Number(And(Sum(x, i), 0x3ff)) == (Number(x) + offset) % 1024
  }

  lemma OffsetWord(offset: nat)
    requires offset <= 128
    ensures Denotes(ToWord(offset), offset)
  {
    NumberOfSmall(offset);
    LowSeven(ToWord(offset), offset);
    forall x | Number(x) < 1024
      ensures Number(And(Sum(x, ToWord(offset)), 0x3ff)) == (Number(x) + offset) % 1024
    {
      NumberOfSum(x, offset);
      LowTen(Sum(x, ToWord(offset)), Number(x) + offset);
    }
  }

  /** A strobe ratio has ten bits. */
  lemma RatioBound(x: bv32)
    ensures Number(GetField(x, 0, 10)) < 1024
  {
    Ones31();
    GetIsLogical(x, 0, 10);
    LowTen(Shr(x, 0), Number(Shr(x, 0)));
  }

  lemma RightDelays(saved: seq<Entry>, load: Load, j: nat)
    requires Lanes(saved) && Right(saved, load) && j < 4
    ensures Delayed(saved, load, j)
  {
    DelayHeld(saved, load, j);
    RatioHeld(saved, load, j, (Number(Value(saved, R55 + 4 * j, 0, 10)) + load.offset) % 1024);
  }

  lemma DelayHeld(saved: seq<Entry>, load: Load, j: nat)
    requires Lanes(saved) && Right(saved, load) && j < 4
    ensures Holding(Delay, load, j, load.offset % 128)
  {
    ListDelay(saved, load.list, load.offset, j);
    LoadedFinds(saved, load.list, ToWord(load.offset), j);
    DelayInController(load, j, load.offset % 128);
  }

  lemma RatioHeld(saved: seq<Entry>, load: Load, j: nat, n: nat)
    requires Lanes(saved) && Right(saved, load) && j < 4
    requires n == (Number(Value(saved, R55 + 4 * j, 0, 10)) + load.offset) % 1024
    ensures Holding(Ratio, load, j, n)
  {
    ListRatio(saved, load.list, load.offset, j, n);
    LoadedFinds(saved, load.list, ToWord(load.offset), j);
    RatioInController(load, j, n);
  }

  /** What the controller holds is what the list says. */
  lemma DelayInController(load: Load, j: nat, n: nat)
    requires InHardware(load.hw, load.list) && FoundAt(load.list, j) && j < 4
    requires Number(Value(load.list, R46 + 4 * j, 24, 7)) == n
    ensures Holding(Delay, load, j, n)
  {
    InController(load, R46 + 4 * j, 40 + j, 24, 7, n);
  }

  lemma RatioInController(load: Load, j: nat, n: nat)
    requires InHardware(load.hw, load.list) && FoundAt(load.list, j) && j < 4
    requires Number(Value(load.list, R5F + 4 * j, 0, 10)) == n
    ensures Holding(Ratio, load, j, n)
  {
    InController(load, R5F + 4 * j, 60 + j, 0, 10, n);
  }

  lemma LoadedFinds(saved: seq<Entry>, list: seq<Entry>, i: bv32, j: nat)
    requires Lanes(saved) && list == Loaded(saved, i) && j < 4
    ensures FoundAt(list, j)
  {
    LaneFinds(saved, list, j);
  }

  lemma ListDelay(saved: seq<Entry>, list: seq<Entry>, offset: nat, j: nat)
    requires Lanes(saved) && offset <= 128 && list == Loaded(saved, ToWord(offset)) && j < 4
    ensures Number(Value(list, R46 + 4 * j, 24, 7)) == offset % 128
  {
    Coherent(saved, ToWord(offset), j);
    OffsetWord(offset);
  }

  lemma ListRatio(saved: seq<Entry>, list: seq<Entry>, offset: nat, j: nat, n: nat)
    requires Lanes(saved) && offset <= 128 && list == Loaded(saved, ToWord(offset)) && j < 4
    requires n == (Number(Value(saved, R55 + 4 * j, 0, 10)) + offset) % 1024
    ensures Number(Value(list, R5F + 4 * j, 0, 10)) == n
  {
    Coherent(saved, ToWord(offset), j);
    RatioFits(saved, j);
    OffsetWord(offset);
  }

  lemma RatioFits(saved: seq<Entry>, j: nat)
    requires Lanes(saved) && j < 4
    ensures Number(Value(saved, R55 + 4 * j, 0, 10)) < 1024
  {
    LaneFinds(saved, saved, j);
    ValueAt(saved, R55 + 4 * j, 52 + j, 0, 10);
    RatioBound(saved[52 + j].data);
  }

  lemma InController(load: Load, addr: nat, k: nat, lsb: nat, width: nat, n: nat)
    requires InHardware(load.hw, load.list) && Find(load.list, addr) == k && 1 <= k < |load.list|
    requires Number(Value(load.list, addr, lsb, width)) == n
    ensures Holds(load, addr, lsb, width, n)
  {
    ValueAt(load.list, addr, k, lsb, width);
  }

  ghost predicate AllDelayed(saved: seq<Entry>, loads: seq<Load>) {
    forall k, j :: 0 <= k < |loads| && 0 <= j < 4 ==> Delayed(saved, loads[k], j)
  }

  lemma RightIsDelayed(saved: seq<Entry>, loads: seq<Load>)
    requires HasColumn(saved) && AllRight(saved, loads)
    ensures AllDelayed(saved, loads)
  {
    FindLanes(saved);
    forall k, j | 0 <= k < |loads| && 0 <= j < 4 ensures Delayed(saved, loads[k], j) {
      RightDelays(saved, loads[k], j);
    }
  }

  function LoadOffsets(loads: seq<Load>): (offsets: seq<int>)
    ensures |offsets| == |loads|
  {
    seq(|loads|, k requires 0 <= k < |loads| => loads[k].offset)
  }

  /** Every nested test ran with the right list. */
  ghost predicate AllRight(saved: seq<Entry>, loads: seq<Load>) {
    forall k :: 0 <= k < |loads| ==> Right(saved, loads[k])
  }

  /** The same, test by test, for a saved list with the right addresses. */
  ghost predicate Track(saved: seq<Entry>, loads: seq<Load>) {
    if loads == [] then HasColumn(saved)
    else Track(saved, loads[..|loads| - 1]) && Right(saved, loads[|loads| - 1])
  }

  ghost function Latest(saved: seq<Entry>, loads: seq<Load>): seq<Entry> {
    if loads == [] then saved else loads[|loads| - 1].list
  }

  lemma {:induction false} TrackFacts(saved: seq<Entry>, loads: seq<Load>)
    requires Track(saved, loads)
    ensures HasColumn(saved) && Lanes(saved) && AllRight(saved, loads) && Movable(saved, Latest(saved, loads))
  {
    if loads == [] {
      FindLanes(saved);
    } else {
      TrackFacts(saved, loads[..|loads| - 1]);
      LoadedMovable(saved, ToWord(loads[|loads| - 1].offset));
    }
  }

  lemma TrackMore(saved: seq<Entry>, loads: seq<Load>, load: Load)
    requires Track(saved, loads) && Right(saved, load)
    ensures Track(saved, loads + [load]) && LoadOffsets(loads + [load]) == LoadOffsets(loads) + [load.offset]
    ensures Latest(saved, loads + [load]) == load.list
  {
    assert (loads + [load])[..|loads|] == loads;
  }

  class Tuner {
    const list: array<Entry>
    var hw: Hardware
    ghost var loads: seq<Load>
    ghost var trace: Trace

    /** During a sweep that began with the list `saved`. */
    ghost predicate Holds(saved: seq<Entry>)
      reads this, list
    {
      && Track(saved, loads) && list[..] == Latest(saved, loads) && LoadOffsets(loads) == OffsetsOf(trace.outcomes)
      && (loads != [] ==> hw == loads[|loads| - 1].hw)
    }

    /** The register list with the given data. */
    constructor (data: seq<bv32>, hw: Hardware)
      requires |data| == 80
      ensures fresh(list) && HasColumn(list[..]) && loads == [] && this.hw == hw
    {
      list := new Entry[80](k requires 0 <= k < 80 => Entry(BASE + Column(k), data[k]));
      this.hw := hw;
      loads := [];
      trace := Trace([], (_, _) => false);
    }

    /** The loop that loads new offset values into the register list. */
    method LoadOffset(i: bv32, ghost saved: seq<Entry>)
      requires Movable(saved, list[..])
      modifies list
      ensures list[..] == Loaded(saved, i)
    {
      ghost var before := list[..];
      for j := 0 to 4
        invariant MovedTo(saved, before, list[..], i, j)
      {
        MoveOne(i, j, saved, before);
      }
      AllMoved(saved, before, list[..], i);
    }

    method MoveOne(i: bv32, j: nat, ghost saved: seq<Entry>, ghost before: seq<Entry>)
      requires j < 4 && Movable(saved, before) && MovedTo(saved, before, list[..], i, j)
      modifies list
      ensures MovedTo(saved, before, list[..], i, j + 1)
    {
      MoveLane(saved, before, list[..], i, j);
      UpdateRegList(list, R46 + 4 * j, 24, 7, i);
      var dqs := GetRegListValue(list, R55 + 4 * j, 0, 10);
      UpdateRegList(list, R5F + 4 * j, 0, 10, Sum(dqs, i));
    }

    /** ddrc_init. */
    method DdrcInit()
      modifies `hw
      ensures hw == Stored(old(hw), list[..])
    {
      for i := 0 to list.Length
        invariant hw == Stored(old(hw), list[..i])
      {
        assert list[..i + 1][..i] == list[..i];
        hw := hw[list[i].addr := list[i].data];
      }
      assert list[..list.Length] == list[..];
    }

    /** The list and the controller for one nested memory test. */
    method SetUpTest(i: int, ghost saved: seq<Entry>)
      requires 0 <= i <= 128 && Track(saved, loads) && list[..] == Latest(saved, loads)
      modifies `hw, `loads, list
      ensures Track(saved, loads) && list[..] == Latest(saved, loads)
      ensures LoadOffsets(loads) == LoadOffsets(old(loads)) + [i]
      ensures loads != [] && hw == loads[|loads| - 1].hw
    {
      Configure(i, saved);
      ghost var load := Load(i, list[..], hw);
      TrackMore(saved, loads, load);
      loads := loads + [load];
    }

    method Configure(i: int, ghost saved: seq<Entry>)
      requires 0 <= i <= 128 && Track(saved, loads) && list[..] == Latest(saved, loads)
      modifies `hw, list
      ensures Right(saved, Load(i, list[..], hw))
    {
      Reload(ToWord(i), saved);
      DdrcInit();
      LoadedStored(old(hw), saved, ToWord(i));
    }

    method Reload(i: bv32, ghost saved: seq<Entry>)
      requires Track(saved, loads) && list[..] == Latest(saved, loads)
      modifies list
      ensures HasColumn(saved) && list[..] == Loaded(saved, i)
    {
      TrackFacts(saved, loads);
      LoadOffset(i, saved);
    }

    /** The test at offset number `n` of side `k`. */
    method Probe(t: Tester, s: Sweep, k: nat, i: int, ghost saved: seq<Entry>, lo0: seq<int>, hi0: seq<int>,
                 ghost rest: Oracle, ghost done: nat, ghost n: nat)
      returns (lo: seq<int>, hi: seq<int>, stop: bool)
      requires t.errBuf.Length == 256 && k < 2 && n < Count(s.step, k) && i == Offset(s.step, k, n) && 0 <= i <= 128
      requires Holds(saved) && OnSide(s, trace, rest, t.dram, k, done, n, lo0, hi0, false)
      modifies `hw, `loads, `trace, list, t, t.errBuf
      ensures Holds(saved) && OnSide(s, trace, rest, t.dram, k, done, n + 1, lo, hi, stop)
      ensures |loads| == |old(loads)| + 1
    {
      SetUpTest(i, saved);
      lo, hi, stop, trace := NestedTest(t, s, k, i, lo0, hi0, trace, rest, done, n);
    }

    /** One side of the sweep. */
    method Walk(t: Tester, s: Sweep, k: nat, ghost saved: seq<Entry>, lo0: seq<int>, hi0: seq<int>,
                ghost rest: Oracle, ghost done: nat)
      returns (lo: seq<int>, hi: seq<int>, ghost n: nat)
      requires t.errBuf.Length == 256 && k < 2
      requires Holds(saved) && OnSide(s, trace, rest, t.dram, k, done, 0, lo0, hi0, false)
      modifies `hw, `loads, `trace, list, t, t.errBuf
      ensures Holds(saved) && OnSide(s, trace, rest, t.dram, k, done, n, lo, hi, true) && loads != []
    {
      lo, hi, n := lo0, hi0, 0;
      var m, stop := 0, false;
      while m <= MMax(s.step) && !stop
        invariant m == n && Holds(saved) && OnSide(s, trace, rest, t.dram, k, done, n, lo, hi, stop)
        invariant (stop ==> m > 0) && (m > 0 ==> loads != [])
        decreases MMax(s.step) - m, !stop
      {
        var i := Offset(s.step, k, m);
        CountIsRange(s.step, k, m);
        if i < 0 || i > 128 { break; }
        lo, hi, stop := Probe(t, s, k, i, saved, lo, hi, rest, done, n);
        n := n + 1;
        m := m + 1;
      }
    }

    method BothSides(t: Tester, s: Sweep, ghost saved: seq<Entry>, ghost rest: Oracle)
      returns (lo: seq<int>, hi: seq<int>, ghost n0: nat, ghost n1: nat)
      requires t.errBuf.Length == 256 && Holds(saved) && trace == Trace([], rest)
      modifies `hw, `loads, `trace, list, t, t.errBuf
      ensures Holds(saved) && OnSide(s, trace, rest, t.dram, 1, n0, n1, lo, hi, true) && loads != []
    {
      lo, hi := NoLo(), NoHi();
      FirstSide(s, rest, t.dram);
      lo, hi, n0 := Walk(t, s, 0, saved, lo, hi, rest, 0);
      SecondSide(s, trace, rest, t.dram, n0, lo, hi);
      lo, hi, n1 := Walk(t, s, 1, saved, lo, hi, rest, n0);
    }

    /** measure_write_eye over every memory. Each nested test runs with list and controller
        moved to its offset; on return the list is as on entry, even with fix_ctr set (that
        block runs for a fifth lane, which the list does not have), while the controller is
        still at the last offset tested; the results are those of the tests, and the true ends
        exactly for lanes without an island. */
    method MeasureWriteEye(t: Tester, c: Config, fast: bool, fastIsBc: bool, step: int, info: bool, fixCtr: bool,
                           ghost rest: Oracle)
      returns (result: seq<int>)
      requires HasColumn(list[..]) && t.errBuf.Length == 256 && loads == []
      modifies `hw, `loads, `trace, list, t, t.errBuf
      ensures list[..] == old(list[..])
      ensures AllRight(old(list[..]), loads) && LoadOffsets(loads) == OffsetsOf(trace.outcomes)
      ensures AllDelayed(old(list[..]), loads)
      ensures loads != [] && hw == loads[|loads| - 1].hw
      ensures var s := Sweep(step, c.(loop := 0), Selection(fast, fastIsBc));
              Small(s) ==>
                Conducted(s, trace, rest, t.dram) && Measured(step, trace.outcomes, trace.pass, t.dram, result)
    {
      var save := list[..];
      trace := Trace([], rest);
      var s := Sweep(step, c.(loop := 0), Selection(fast, fastIsBc));
      var lo, hi;
      ghost var n0, n1;
      lo, hi, n0, n1 := BothSides(t, s, save, rest);
      TrackFacts(save, loads);
      RightIsDelayed(save, loads);
      Restore(save);
      Finish(s, trace, rest, t.dram, n0, n1, lo, hi);
      result := Interleave(lo, hi);
      if info && fixCtr {
        FixCentre((lo[3] + hi[3]) / 2);
      }
    }

    method Restore(save: seq<Entry>)
      requires |save| == list.Length
      modifies list
      ensures list[..] == save
    {
      for i := 0 to list.Length
        invariant list[..i] == save[..i]
      {
        list[i] := save[i];
      }
    }

    /** The block guarded by fix_ctr, with j left at 4 by the loop before it. */
    method FixCentre(cc: int)
      requires HasColumn(list[..])
      modifies list
      ensures list[..] == old(list[..])
    {
      var j := 4;
      NoFifthLane(list[..]);
      UpdateRegList(list, R46 + 4 * j, 24, 7, ToWord(cc));
      var dqs := GetRegListValue(list, R55 + 4 * j, 0, 10);
      UpdateRegList(list, R5F + 4 * j, 0, 10, Sum(dqs, ToWord(cc)));
    }
  }
}
