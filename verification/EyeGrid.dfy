/** The offsets an eye sweep walks: outwards from the centre, up from 64 and down from 60,
    stopping on each side at the first offset where every byte lane fails. */
module EyeGrid {
  import opened Arithmetic

  /** Whether byte lane j passes the memory test at a given offset. A sweep tests each
      offset at most once, so this is an arbitrary memory. */
  type Oracle = (int, nat) -> bool

  predicate AllFail(pass: Oracle, i: int) {
    !pass(i, 0) && !pass(i, 1) && !pass(i, 2) && !pass(i, 3)
  }

  /** Step sizes other than 1 and 2 mean 4. */
  function MMax(step: int): nat {
    if step == 2 then 32 else if step == 1 then 64 else 16
  }

  /** Offset number `m` on side `k` (0: up, 1: down). */
  function Offset(step: int, k: nat, m: nat): int {
    var d := if step == 2 then 2 * m else if step == 1 then m else 4 * m;
    if k == 0 then 64 + d else 60 - d
  }

  /** How many offsets side `k` has inside 0..128. */
  function Count(step: int, k: nat): nat {
    if k == 0 then MMax(step) + 1 else if step == 2 then 31 else if step == 1 then 61 else 16
  }

  lemma CountIsRange(step: int, k: nat, m: nat)
    requires k < 2 && m <= MMax(step)
    ensures 0 <= Offset(step, k, m) <= 128 <==> m < Count(step, k)
  {
  }

  /** The grid: from 64 up and from 60 down in steps of 1, 2 or 4, as far as 128 and 0. */
  lemma Grid(step: int, m: nat)
    ensures Offset(step, 0, 0) == 64 && Offset(step, 1, 0) == 60
    ensures var d := if step == 1 then 1 else if step == 2 then 2 else 4;
            Offset(step, 0, m + 1) == Offset(step, 0, m) + d && Offset(step, 1, m + 1) == Offset(step, 1, m) - d
    ensures Offset(step, 0, Count(step, 0) - 1) == 128 && Offset(step, 1, Count(step, 1) - 1) == 0
  {
  }

  /** Side `k` is walked for `n` offsets: up to the first at which all lanes fail. */
  ghost predicate WalksTo(step: int, pass: Oracle, k: nat, n: nat) {
    && 1 <= n <= Count(step, k)
    && (forall m :: 0 <= m < n - 1 ==> !AllFail(pass, Offset(step, k, m)))
    && (n == Count(step, k) || AllFail(pass, Offset(step, k, n - 1)))
  }

  predicate Passes(step: int, pass: Oracle, j: nat, k: nat, m: nat) {
    pass(Offset(step, k, m), j)
  }

  /** The passing offsets of lane `j` among the first `n` of side `k`. */
  ghost function Side(step: int, pass: Oracle, j: nat, k: nat, n: nat): set<int> {
    set m | 0 <= m < n && Passes(step, pass, j, k, m) :: Offset(step, k, m)
  }

  ghost function Passing(step: int, pass: Oracle, j: nat, n0: nat, n1: nat): set<int> {
    Side(step, pass, j, 0, n0) + Side(step, pass, j, 1, n1)
  }

  /** (lo, hi) are the smallest and the largest member; 9999 and -9999 if there is none. */
  ghost predicate IsRange(s: set<int>, lo: int, hi: int) {
    if s == {} then lo == 9999 && hi == -9999
    else lo in s && hi in s && forall i :: i in s ==> lo <= i <= hi
  }

  /** What a sweep reports for lane `j` after n0 offsets upwards and n1 downwards. */
  ghost predicate Eye(step: int, pass: Oracle, j: nat, n0: nat, n1: nat, lo: int, hi: int) {
    IsRange(Passing(step, pass, j, n0, n1), lo, hi)
  }

  // ----- one more offset

  lemma RangeMore(s: set<int>, lo: int, hi: int, i: int)
    requires IsRange(s, lo, hi) && 0 <= i <= 128
    ensures IsRange(s + {i}, Min(lo, i), Max(hi, i))
  {
    var t := s + {i};
    assert i in t;
  }

  lemma SideMore(step: int, pass: Oracle, j: nat, k: nat, n: nat)
    ensures Side(step, pass, j, k, n + 1) ==
            if Passes(step, pass, j, k, n) then Side(step, pass, j, k, n) + {Offset(step, k, n)}
            else Side(step, pass, j, k, n)
  {
    var more := Side(step, pass, j, k, n + 1);
    if Passes(step, pass, j, k, n) {
      assert Offset(step, k, n) in more;
    }
    forall i | i in Side(step, pass, j, k, n) ensures i in more {
      var m :| 0 <= m < n && Passes(step, pass, j, k, m) && Offset(step, k, m) == i;
    }
  }

  /** The results after the test at offset number `n` of side `k` (n0 up, n1 down so far). */
  lemma EyeMore(step: int, pass: Oracle, j: nat, k: nat, n0: nat, n1: nat, lo: int, hi: int)
    requires k < 2 && Eye(step, pass, j, n0, n1, lo, hi) && (if k == 0 then n0 else n1) < Count(step, k)
    ensures var n := if k == 0 then n0 else n1;
            var i := Offset(step, k, n);
            var n0', n1' := if k == 0 then n0 + 1 else n0, if k == 0 then n1 else n1 + 1;
            if Passes(step, pass, j, k, n) then Eye(step, pass, j, n0', n1', Min(lo, i), Max(hi, i))
            else Eye(step, pass, j, n0', n1', lo, hi)
  {
    var s := Passing(step, pass, j, n0, n1);
    if k == 0 {
      SideMore(step, pass, j, 0, n0);
      RangeMore(s, lo, hi, Offset(step, 0, n0));
      assert s + {Offset(step, 0, n0)} ==
             Side(step, pass, j, 0, n0) + {Offset(step, 0, n0)} + Side(step, pass, j, 1, n1);
    } else {
      SideMore(step, pass, j, 1, n1);
      RangeMore(s, lo, hi, Offset(step, 1, n1));
      assert s + {Offset(step, 1, n1)} ==
             Side(step, pass, j, 0, n0) + (Side(step, pass, j, 1, n1) + {Offset(step, 1, n1)});
    }
  }

  // ----- the early stop against the exhaustive scan

  /** Beyond an offset where all lanes fail, lane `j` does not pass again. */
  ghost predicate NoIsland(step: int, pass: Oracle, j: nat) {
    forall k, m, m' :: 0 <= k < 2 && 0 <= m < m' < Count(step, k) && AllFail(pass, Offset(step, k, m)) ==>
      !Passes(step, pass, j, k, m')
  }

  /** The passing offsets of lane `j` are none, or an interval of the grid around the centre. */
  ghost predicate CentralInterval(step: int, pass: Oracle, j: nat) {
    || (forall k, m :: 0 <= k < 2 && 0 <= m < Count(step, k) ==> !Passes(step, pass, j, k, m))
    || ((Passes(step, pass, j, 0, 0) || Passes(step, pass, j, 1, 0)) &&
        forall k, m, k', m', k'', m'' ::
          0 <= k < 2 && 0 <= k' < 2 && 0 <= k'' < 2 &&
          0 <= m < Count(step, k) && 0 <= m' < Count(step, k') && 0 <= m'' < Count(step, k'') &&
          Passes(step, pass, j, k, m) && Passes(step, pass, j, k'', m'') &&
          Offset(step, k, m) <= Offset(step, k', m') <= Offset(step, k'', m'')
          ==> Passes(step, pass, j, k', m'))
  }

  lemma IntervalHasNoIsland(step: int, pass: Oracle, j: nat)
    requires j < 4 && CentralInterval(step, pass, j)
    ensures NoIsland(step, pass, j)
  {
    forall k, m, m' | 0 <= k < 2 && 0 <= m < m' < Count(step, k) && Passes(step, pass, j, k, m')
      ensures !AllFail(pass, Offset(step, k, m))
    {
      PassesInside(step, pass, j, k, m, m');
    }
  }

  lemma PassesInside(step: int, pass: Oracle, j: nat, k: nat, m: nat, m': nat)
    requires j < 4 && CentralInterval(step, pass, j)
    requires k < 2 && m < m' < Count(step, k) && Passes(step, pass, j, k, m')
    ensures !AllFail(pass, Offset(step, k, m))
  {
    assert Passes(step, pass, j, k, m) by {
      var c := if Passes(step, pass, j, 0, 0) then 0 else 1;
      assert Passes(step, pass, j, c, 0);
    }
  }

  /** The members of a side lie between its first and its last offset. */
  lemma {:induction false} SideBounds(step: int, pass: Oracle, j: nat, k: nat, n: nat)
    requires k < 2
    ensures forall i :: i in Side(step, pass, j, k, n) && k == 0 ==> 64 <= i < Offset(step, 0, n)
    ensures forall i :: i in Side(step, pass, j, k, n) && k == 1 ==> Offset(step, 1, n) < i <= 60
  {
    if n > 0 {
      SideBounds(step, pass, j, k, n - 1);
      SideMore(step, pass, j, k, n - 1);
    } else {
      assert Side(step, pass, j, k, 0) == {};
    }
  }

  /** Nothing that passes is left untested on side `k` of lane `j`. */
  ghost predicate Complete(step: int, pass: Oracle, j: nat, k: nat, n: nat) {
    forall m :: n <= m < Count(step, k) ==> !Passes(step, pass, j, k, m)
  }

  lemma CompleteSides(step: int, pass: Oracle, j: nat, n0: nat, n1: nat)
    requires j < 4 && WalksTo(step, pass, 0, n0) && WalksTo(step, pass, 1, n1)
    ensures NoIsland(step, pass, j) <==> Complete(step, pass, j, 0, n0) && Complete(step, pass, j, 1, n1)
  {
    if NoIsland(step, pass, j) {
      assert n0 < Count(step, 0) ==> AllFail(pass, Offset(step, 0, n0 - 1));
      assert n1 < Count(step, 1) ==> AllFail(pass, Offset(step, 1, n1 - 1));
    }
    if Complete(step, pass, j, 0, n0) && Complete(step, pass, j, 1, n1) {
      forall k, m, m' | 0 <= k < 2 && 0 <= m < m' < Count(step, k) && AllFail(pass, Offset(step, k, m))
        ensures !Passes(step, pass, j, k, m')
      {
        assert m >= (if k == 0 then n0 else n1) - 1;
      }
    }
  }

  lemma {:induction false} SameSide(step: int, pass: Oracle, j: nat, k: nat, n: nat, n': nat)
    requires n <= n' && forall m :: n <= m < n' ==> !Passes(step, pass, j, k, m)
    ensures Side(step, pass, j, k, n) == Side(step, pass, j, k, n')
  {
    if n < n' {
      SameSide(step, pass, j, k, n, n' - 1);
      SideMore(step, pass, j, k, n' - 1);
    }
  }

  /** The sweep with its early stop reports the true smallest and largest passing offsets of
      a lane exactly when the lane has no island beyond an all-lane failure. */
  lemma SweepIsExact(step: int, pass: Oracle, j: nat, n0: nat, n1: nat, lo: int, hi: int)
    requires j < 4 && WalksTo(step, pass, 0, n0) && WalksTo(step, pass, 1, n1)
    requires Eye(step, pass, j, n0, n1, lo, hi)
    ensures Eye(step, pass, j, Count(step, 0), Count(step, 1), lo, hi) <==> NoIsland(step, pass, j)
  {
    CompleteSides(step, pass, j, n0, n1);
    if NoIsland(step, pass, j) {
      SameSide(step, pass, j, 0, n0, Count(step, 0));
      SameSide(step, pass, j, 1, n1, Count(step, 1));
    } else {
      var k, m := Missed(step, pass, j, n0, n1);
      Outside(step, pass, j, n0, n1, lo, hi, k, m);
    }
  }

  /** A passing offset that was not reached lies outside the reported range. */
  lemma Outside(step: int, pass: Oracle, j: nat, n0: nat, n1: nat, lo: int, hi: int, k: nat, m: nat)
    requires Eye(step, pass, j, n0, n1, lo, hi)
    requires k < 2 && (if k == 0 then n0 else n1) <= m < Count(step, k) && Passes(step, pass, j, k, m)
    ensures !Eye(step, pass, j, Count(step, 0), Count(step, 1), lo, hi)
  {
    SideBounds(step, pass, j, 0, n0);
    SideBounds(step, pass, j, 1, n1);
    assert Offset(step, k, m) in Side(step, pass, j, k, Count(step, k));
    assert Offset(step, k, m) in Passing(step, pass, j, Count(step, 0), Count(step, 1));
  }

  lemma Missed(step: int, pass: Oracle, j: nat, n0: nat, n1: nat) returns (k: nat, m: nat)
    requires !(Complete(step, pass, j, 0, n0) && Complete(step, pass, j, 1, n1))
    ensures k < 2 && (if k == 0 then n0 else n1) <= m < Count(step, k) && Passes(step, pass, j, k, m)
  {
    if !Complete(step, pass, j, 0, n0) {
      k := 0;
      m :| n0 <= m < Count(step, 0) && Passes(step, pass, j, 0, m);
    } else {
      k := 1;
      m :| n1 <= m < Count(step, 1) && Passes(step, pass, j, 1, m);
    }
  }

  /** The sentinels appear exactly when no tested offset passed; otherwise the ends are
      tested passing offsets. */
  lemma Sentinels(step: int, pass: Oracle, j: nat, n0: nat, n1: nat, lo: int, hi: int)
    requires n0 <= Count(step, 0) && n1 <= Count(step, 1) && Eye(step, pass, j, n0, n1, lo, hi)
    ensures lo == 9999 <==> Passing(step, pass, j, n0, n1) == {}
    ensures hi == -9999 <==> Passing(step, pass, j, n0, n1) == {}
    ensures Passing(step, pass, j, n0, n1) != {} ==> 0 <= lo <= hi <= 128 && pass(lo, j) && pass(hi, j)
  {
    SideBounds(step, pass, j, 0, n0);
    SideBounds(step, pass, j, 1, n1);
  }

  /** A memory in which only lane 0 ever passes, at offsets 64 and 72. */
  function IslandMemory(): Oracle {
    (i, j) => j == 0 && (i == 64 || i == 72)
  }

  /** In steps of 4 the sweep stops at 68 and reports 64..64 for lane 0, which is wrong. */
  lemma MissedIsland()
    ensures var pass := IslandMemory();
            && WalksTo(4, pass, 0, 2) && WalksTo(4, pass, 1, 1) && Eye(4, pass, 0, 2, 1, 64, 64)
            && !Eye(4, pass, 0, Count(4, 0), Count(4, 1), 64, 64)
  {
    var pass := IslandMemory();
    assert AllFail(pass, Offset(4, 0, 1)) && AllFail(pass, Offset(4, 1, 0));
    SideMore(4, pass, 0, 0, 0);
    SideMore(4, pass, 0, 0, 1);
    SideMore(4, pass, 0, 1, 0);
    assert Passing(4, pass, 0, 2, 1) == {64};
    assert Passes(4, pass, 0, 0, 2) && Offset(4, 0, 2) == 72;
    SweepIsExact(4, pass, 0, 2, 1, 64, 64);
  }

  // ----- results of a sweep in progress

  /** The min and max arrays of a sweep that has tested n0 offsets up and n1 down. */
  ghost predicate Eyes(step: int, pass: Oracle, n0: nat, n1: nat, lo: seq<int>, hi: seq<int>) {
    |lo| == |hi| == 4 && forall j :: 0 <= j < 4 ==> Eye(step, pass, j, n0, n1, lo[j], hi[j])
  }

  /** The arrays before the first test. */
  function NoLo(): seq<int> { [9999, 9999, 9999, 9999] }

  function NoHi(): seq<int> { [-9999, -9999, -9999, -9999] }

  lemma NoEyes(step: int, pass: Oracle)
    ensures Eyes(step, pass, 0, 0, NoLo(), NoHi())
  {
    forall j | 0 <= j < 4 ensures Passing(step, pass, j, 0, 0) == {} {
    }
  }

  /** The first `n` offsets of side `k`, in the order in which they are tested. */
  function Walked(step: int, k: nat, n: nat): seq<int> {
    seq(n, m requires 0 <= m => Offset(step, k, m))
  }

  /** The result array: min and max interleaved. */
  function Interleave(lo: seq<int>, hi: seq<int>): seq<int>
    requires |lo| == |hi| == 4
  {
    [lo[0], hi[0], lo[1], hi[1], lo[2], hi[2], lo[3], hi[3]]
  }

  /** A result array holds, for every lane, the eye of the offsets walked. */
  ghost predicate Reported(step: int, pass: Oracle, n0: nat, n1: nat, result: seq<int>) {
    |result| == 8 && forall j :: 0 <= j < 4 ==> Eye(step, pass, j, n0, n1, result[2 * j], result[2 * j + 1])
  }

  lemma InterleaveReports(step: int, pass: Oracle, n0: nat, n1: nat, lo: seq<int>, hi: seq<int>)
    requires Eyes(step, pass, n0, n1, lo, hi)
    ensures Reported(step, pass, n0, n1, Interleave(lo, hi))
  {
  }
}
