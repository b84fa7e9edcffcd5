/** find_best_eye: the quality of each eye measurement and the choice of the best one. */
module BestEye {
  import opened Arithmetic
  import EyeGrid

  /** One experiment: four (min, max) pairs, one per byte lane. */
  function Width(x: seq<int>, i: nat, j: nat): int
    requires 8 * i + 2 * j + 1 < |x|
  {
    x[8 * i + 2 * j + 1] - x[8 * i + 2 * j]
  }

  function Clip(w: int): int {
    if w <= 0 then 0 else w
  }

  function Square(a: int): int {
    a * a
  }

  predicate Open(a: int, b: int, c: int, d: int) {
    a > 0 && b > 0 && c > 0 && d > 0
  }

  /** The sum of the widths, or 0 if some lane is closed. */
  function WidthScore(a: int, b: int, c: int, d: int): int {
    if Open(a, b, c, d) then a + b + c + d else 0
  }

  /** The sum of squared distances of the four clipped widths from `s`. */
  function Spread(s: int, a: int, b: int, c: int, d: int): int {
    Square(s - Clip(a)) + Square(s - Clip(b)) + Square(s - Clip(c)) + Square(s - Clip(d))
  }

  function Score(a: int, b: int, c: int, d: int): int {
    var s := WidthScore(a, b, c, d);
    Square(s) - Spread(s, a, b, c, d) / 4
  }

  function Quality(x: seq<int>, i: nat): int
    requires 8 * i + 8 <= |x|
  {
    Score(Width(x, i, 0), Width(x, i, 1), Width(x, i, 2), Width(x, i, 3))
  }

  predicate AllOpen(x: seq<int>, i: nat)
    requires 8 * i + 8 <= |x|
  {
    Open(Width(x, i, 0), Width(x, i, 1), Width(x, i, 2), Width(x, i, 3))
  }

  // ----- the inequality behind the score

  lemma SquareOfDifference(s: int, a: int)
    ensures Square(s - a) == Square(s) - 2 * (s * a) + Square(a)
  {
  }

  /** For open lanes the spread around the width sum S is 2 S^2 plus the sum of squares. */
  lemma SpreadOfOpen(a: int, b: int, c: int, d: int)
    requires Open(a, b, c, d)
    ensures var s := a + b + c + d;
            Spread(s, a, b, c, d) == 2 * Square(s) + Square(a) + Square(b) + Square(c) + Square(d)
  {
    var s := a + b + c + d;
    SquareOfDifference(s, a);
    SquareOfDifference(s, b);
    SquareOfDifference(s, c);
    SquareOfDifference(s, d);
    Distribute(s, a, b, c, d);
  }

  lemma Distribute(s: int, a: int, b: int, c: int, d: int)
    ensures s * a + s * b + s * c + s * d == s * (a + b + c + d)
  {
  }

  lemma SumOfSquares(a: int, b: int, c: int, d: int)
    requires a >= 0 && b >= 0 && c >= 0 && d >= 0
    ensures Square(a) + Square(b) + Square(c) + Square(d) <= Square(a + b + c + d)
  {
    TwoSquares(a, b);
    TwoSquares(a + b, c);
    TwoSquares(a + b + c, d);
  }

  lemma TwoSquares(a: int, b: int)
    requires a >= 0 && b >= 0
    ensures Square(a) + Square(b) <= Square(a + b)
  {
    assert a * b >= 0;
    assert Square(a + b) == Square(a) + 2 * (a * b) + Square(b);
  }

  /** Four open lanes of total width S score at least S^2/4, hence more than 0. */
  lemma OpenScores(a: int, b: int, c: int, d: int)
    requires Open(a, b, c, d)
    ensures 4 * Score(a, b, c, d) >= Square(a + b + c + d) && Score(a, b, c, d) > 0
  {
    var s := a + b + c + d;
    SpreadOfOpen(a, b, c, d);
    SumOfSquares(a, b, c, d);
    SquareGrows(s);
    QuarterOf(Square(s), Spread(s, a, b, c, d));
  }

  lemma SquareGrows(s: int)
    ensures Square(s) >= s
  {
    if s > 1 {
      assert s * (s - 1) >= 0;
    } else {
      SquareNonNegative(s);
    }
  }

  lemma QuarterOf(square: int, spread: int)
    requires spread <= 3 * square
    ensures 4 * (square - spread / 4) >= square
  {
  }

  /** The score of open lanes: uneven widths cost a quarter of their sum of squares. */
  lemma OpenScore(a: int, b: int, c: int, d: int)
    requires Open(a, b, c, d)
    ensures var s := a + b + c + d;
            Score(a, b, c, d) == s * s - (2 * (s * s) + (a * a + b * b + c * c + d * d)) / 4
  {
    SpreadOfOpen(a, b, c, d);
  }

  /** Of two sets of open lanes with the same total width, the one with the smaller sum of squares
      never scores lower, and a clearly smaller one scores higher. */
  lemma EvenLanesScore(a: int, b: int, c: int, d: int, a': int, b': int, c': int, d': int)
    requires Open(a, b, c, d) && Open(a', b', c', d') && a + b + c + d == a' + b' + c' + d'
    ensures var q, q' := a * a + b * b + c * c + d * d, a' * a' + b' * b' + c' * c' + d' * d';
            && (q <= q' ==> Score(a, b, c, d) >= Score(a', b', c', d'))
            && (q + 4 <= q' ==> Score(a, b, c, d) > Score(a', b', c', d'))
  {
    OpenScore(a, b, c, d);
    OpenScore(a', b', c', d');
    Quarters(a + b + c + d, a' + b' + c' + d',
             a * a + b * b + c * c + d * d, a' * a' + b' * b' + c' * c' + d' * d');
  }

  lemma Quarters(s: int, s': int, q: int, q': int)
    requires s == s'
    ensures q <= q' ==> s * s - (2 * (s * s) + q) / 4 >= s' * s' - (2 * (s' * s') + q') / 4
    ensures q + 4 <= q' ==> s * s - (2 * (s * s) + q) / 4 > s' * s' - (2 * (s' * s') + q') / 4
  {
  }

  /** A closed lane costs the whole width score: the result is not positive. */
  lemma ClosedScores(a: int, b: int, c: int, d: int)
    requires !Open(a, b, c, d)
    ensures Score(a, b, c, d) <= 0
  {
    SquareNonNegative(0 - Clip(a));
    SquareNonNegative(0 - Clip(b));
    SquareNonNegative(0 - Clip(c));
    SquareNonNegative(0 - Clip(d));
  }

  /** A quality of -9999 or less, which find_best_eye does not look at, needs a closed lane
      and wide other ones. */
  lemma LowScores(a: int, b: int, c: int, d: int)
    ensures Score(a, b, c, d) <= -9999 <==>
            !Open(a, b, c, d) && Square(Clip(a)) + Square(Clip(b)) + Square(Clip(c)) + Square(Clip(d)) >= 39996
  {
    if Open(a, b, c, d) {
      OpenScores(a, b, c, d);
    } else {
      ClosedScore(a, b, c, d);
    }
  }

  lemma ClosedScore(a: int, b: int, c: int, d: int)
    requires !Open(a, b, c, d)
    ensures Score(a, b, c, d) ==
            -((Square(Clip(a)) + Square(Clip(b)) + Square(Clip(c)) + Square(Clip(d))) / 4)
  {
    SquareOfNegative(Clip(a));
    SquareOfNegative(Clip(b));
    SquareOfNegative(Clip(c));
    SquareOfNegative(Clip(d));
  }

  lemma SquareOfNegative(a: int)
    ensures Square(0 - a) == Square(a)
  {
  }

  /** Sweep results on which it happens: three lanes fully open and one closed. */
  lemma NoChoice()
    ensures var x := [0, 128, 0, 128, 0, 128, 9999, -9999];
            SweepResults(x) && Quality(x, 0) == -12288
  {
    var x := [0, 128, 0, 128, 0, 128, 9999, -9999];
    assert Width(x, 0, 0) == Width(x, 0, 1) == Width(x, 0, 2) == 128 && Width(x, 0, 3) == -19998;
  }

  lemma SquareNonNegative(a: int)
    ensures Square(a) >= 0
  {
  }

  /** The results a sweep can report: offsets in 0..128, or the sentinels of a closed lane. */
  predicate SweepResults(x: seq<int>) {
    && |x| % 8 == 0
    && forall k :: 0 <= k < |x| / 2 ==> SweepPair(x[2 * k], x[2 * k + 1])
  }

  predicate SweepPair(lo: int, hi: int) {
    (0 <= lo <= hi <= 128) || (lo == 9999 && hi == -9999)
  }

  /** What the sweeps report is of that form. */
  lemma SweepsReportPairs(step: int, pass: EyeGrid.Oracle, j: nat, n0: nat, n1: nat, lo: int, hi: int)
    requires n0 <= EyeGrid.Count(step, 0) && n1 <= EyeGrid.Count(step, 1)
    requires EyeGrid.Eye(step, pass, j, n0, n1, lo, hi)
    ensures SweepPair(lo, hi)
  {
    EyeGrid.Sentinels(step, pass, j, n0, n1, lo, hi);
  }

  lemma SquareBound(a: int, m: int)
    requires -m <= a <= m
    ensures 0 <= Square(a) <= Square(m)
  {
    if a >= 0 {
      assert a * a <= a * m <= m * m;
    } else {
      assert a * a == (-a) * (-a) <= (-a) * m <= m * m;
    }
  }

  /** On sweep results no intermediate of the computation leaves 32 bits. */
  lemma NoOverflow(a: int, b: int, c: int, d: int)
    requires a <= 128 && b <= 128 && c <= 128 && d <= 128
    requires a >= -19998 && b >= -19998 && c >= -19998 && d >= -19998
    ensures Int32(a + b + c + d) && Int32(Square(WidthScore(a, b, c, d))) && Int32(Score(a, b, c, d))
    ensures var s := WidthScore(a, b, c, d);
            0 <= Spread(s, a, b, c, d) <= 4 * Square(512) && 0 <= s <= 512
  {
    var s := WidthScore(a, b, c, d);
    SquareBound(s, 512);
    SquareBound(s - Clip(a), 512);
    SquareBound(s - Clip(b), 512);
    SquareBound(s - Clip(c), 512);
    SquareBound(s - Clip(d), 512);
  }

  // ----- the search

  /** First index of the largest value above -9999 among those not excluded; -1 if none. */
  ghost predicate IsBest(q: seq<int>, excluded: set<int>, val: int, pos: int) {
    && (pos == -1 ==> val == -9999 && forall i :: 0 <= i < |q| && i !in excluded ==> q[i] <= -9999)
    && (pos != -1 ==>
          && 0 <= pos < |q| && pos !in excluded && q[pos] == val > -9999
          && (forall i :: 0 <= i < |q| && i !in excluded ==> q[i] <= val)
          && (forall i :: 0 <= i < pos && i !in excluded ==> q[i] < val))
  }

  method FindMax(q: seq<int>, excluded: set<int>) returns (val: int, pos: int)
    ensures IsBest(q, excluded, val, pos)
  {
    val, pos := -9999, -1;
    for i := 0 to |q|
      invariant IsBest(q[..i], excluded, val, pos)
    {
      var a := q[i];
      if a > val && i !in excluded {
        val, pos := a, i;
      }
    }
    assert q[..|q|] == q;
  }

  /** The three loops over the experiments: width score, spread, difference and its copy. */
  method Qualities(x: seq<int>, cnt: nat, qual1: array<int>, qual2: array<int>, qual3: array<int>, qual4: array<int>)
    requires |x| == 8 * cnt && cnt <= qual1.Length && cnt <= qual2.Length && cnt <= qual3.Length && cnt <= qual4.Length
    requires qual1 != qual2 && qual1 != qual3 && qual1 != qual4 && qual2 != qual3 && qual2 != qual4 && qual3 != qual4
    modifies qual1, qual2, qual3, qual4
    ensures forall i :: 0 <= i < cnt ==> qual3[i] == qual4[i] == Quality(x, i)
    ensures forall i :: cnt <= i < qual3.Length ==> qual3[i] == old(qual3[i])
  {
    for i := 0 to cnt
      invariant forall k :: 0 <= k < i ==>
                  qual1[k] == WidthScore(Width(x, k, 0), Width(x, k, 1), Width(x, k, 2), Width(x, k, 3))
      invariant forall k :: 0 <= k < i ==>
                  qual2[k] == Spread(qual1[k], Width(x, k, 0), Width(x, k, 1), Width(x, k, 2), Width(x, k, 3)) / 4
      invariant forall k :: 0 <= k < qual3.Length ==> qual3[k] == old(qual3[k])
    {
      var score, spread := OneExperiment(x, i);
      qual1[i] := score;
      qual2[i] := spread / 4;
    }
    for i := 0 to cnt
      invariant forall k :: 0 <= k < cnt ==>
                  qual1[k] == WidthScore(Width(x, k, 0), Width(x, k, 1), Width(x, k, 2), Width(x, k, 3))
      invariant forall k :: 0 <= k < cnt ==>
                  qual2[k] == Spread(qual1[k], Width(x, k, 0), Width(x, k, 1), Width(x, k, 2), Width(x, k, 3)) / 4
      invariant forall k :: 0 <= k < i ==> qual3[k] == Quality(x, k)
      invariant forall k :: cnt <= k < qual3.Length ==> qual3[k] == old(qual3[k])
    {
      qual3[i] := Square(qual1[i]) - qual2[i];
    }
    for i := 0 to cnt
      invariant forall k :: 0 <= k < cnt ==> qual3[k] == Quality(x, k)
      invariant forall k :: 0 <= k < i ==> qual4[k] == Quality(x, k)
      invariant forall k :: cnt <= k < qual3.Length ==> qual3[k] == old(qual3[k])
    {
      qual4[i] := qual3[i];
    }
  }

  /** The two inner loops over the lanes of experiment `i`. */
  method OneExperiment(x: seq<int>, i: nat) returns (score: int, spread: int)
    requires 8 * i + 8 <= |x|
    ensures score == WidthScore(Width(x, i, 0), Width(x, i, 1), Width(x, i, 2), Width(x, i, 3))
    ensures spread == Spread(score, Width(x, i, 0), Width(x, i, 1), Width(x, i, 2), Width(x, i, 3))
  {
    var w := [Width(x, i, 0), Width(x, i, 1), Width(x, i, 2), Width(x, i, 3)];
    var bad, sum := 0, 0;
    for j := 0 to 4
      invariant bad >= 0 && (bad == 0 <==> forall k :: 0 <= k < j ==> w[k] > 0)
      invariant sum == (if j > 0 then w[0] else 0) + (if j > 1 then w[1] else 0)
                       + (if j > 2 then w[2] else 0) + (if j > 3 then w[3] else 0)
    {
      if w[j] <= 0 { bad := bad + 1; }
      sum := sum + w[j];
    }
    score := if bad > 0 then 0 else sum;
    assert Open(w[0], w[1], w[2], w[3]) <==> forall k :: 0 <= k < 4 ==> w[k] > 0;
    spread := 0;
    for j := 0 to 4
      invariant spread == (if j > 0 then Square(score - Clip(w[0])) else 0)
                          + (if j > 1 then Square(score - Clip(w[1])) else 0)
                          + (if j > 2 then Square(score - Clip(w[2])) else 0)
                          + (if j > 3 then Square(score - Clip(w[3])) else 0)
    {
      var a := score - Clip(w[j]);
      spread := spread + Square(a);
    }
  }

  /** The sum of the two neighbours; an index outside the array reads whatever is there. */
  function Neighbours(q: seq<int>, outside: int -> int, pos: int): int {
    Cell(q, outside, pos - 1) + Cell(q, outside, pos + 1)
  }

  function Cell(q: seq<int>, outside: int -> int, i: int): int {
    if 0 <= i < |q| then q[i] else outside(i)
  }

  /** Positions 0, 1, 2 are the first places of the three best values, in order. */
  ghost predicate Ranked(q: seq<int>, val: seq<int>, pos: seq<int>) {
    && |val| == |pos| == 3
    && IsBest(q, {}, val[0], pos[0])
    && IsBest(q, {pos[0]}, val[1], pos[1])
    && IsBest(q, {pos[0], pos[1]}, val[2], pos[2])
  }

  /** The first of the `n` best places whose neighbours are the largest. */
  ghost predicate FirstLargest(row: seq<int>, outside: int -> int, pos: seq<int>, n: nat, choice: int)
    requires n <= |pos|
  {
    exists k :: 0 <= k < n && choice == pos[k] && LargestAt(row, outside, pos, n, k)
  }

  ghost predicate LargestAt(row: seq<int>, outside: int -> int, pos: seq<int>, n: nat, k: nat)
    requires k < n <= |pos|
  {
    && (forall l :: 0 <= l < n ==> Neighbours(row, outside, pos[l]) <= Neighbours(row, outside, pos[k]))
    && (forall l :: 0 <= l < k ==> Neighbours(row, outside, pos[l]) < Neighbours(row, outside, pos[k]))
  }

  /** What the choice among the best promises: a place of the best value; the middle of
      three equal consecutive ones; otherwise, among the (at most three) equal best, the
      first with the largest neighbours. */
  ghost predicate WellChosen(q: seq<int>, row: seq<int>, outside: int -> int, val: seq<int>, pos: seq<int>, choice: int)
    requires |val| == |pos| == 3
  {
    var two := val[0] == val[1];
    var three := two && val[1] == val[2];
    && choice in pos
    && (pos[0] == -1 ==> choice == -1)
    && (pos[0] != -1 ==> 0 <= choice < |q| && q[choice] == val[0])
    && (!two ==> choice == pos[0])
    && (three && pos[1] == pos[0] + 1 && pos[2] == pos[1] + 1 ==> choice == pos[1])
    && (three && !(pos[1] == pos[0] + 1 && pos[2] == pos[1] + 1) ==> FirstLargest(row, outside, pos, 3, choice))
    && (two && !three ==> FirstLargest(row, outside, pos, 2, choice))
  }

  /** The comparisons of the neighbour sums of three places, and of two. Each ends with a
      branch that cannot be reached, which is left out. */
  method OfThree(row: seq<int>, outside: int -> int, pos: seq<int>) returns (choice: int)
    requires |pos| == 3
    ensures FirstLargest(row, outside, pos, 3, choice)
  {
    var n0, n1 := Neighbours(row, outside, pos[0]), Neighbours(row, outside, pos[1]);
    var n2 := Neighbours(row, outside, pos[2]);
    if n0 >= n1 && n0 >= n2 {
      choice := pos[0];
      assert LargestAt(row, outside, pos, 3, 0);
    } else if n1 >= n0 && n1 >= n2 {
      choice := pos[1];
      assert LargestAt(row, outside, pos, 3, 1);
    } else {
      choice := pos[2];
      assert LargestAt(row, outside, pos, 3, 2);
    }
  }

  method OfTwo(row: seq<int>, outside: int -> int, pos: seq<int>) returns (choice: int)
    requires |pos| == 3
    ensures FirstLargest(row, outside, pos, 2, choice)
  {
    var n0, n1 := Neighbours(row, outside, pos[0]), Neighbours(row, outside, pos[1]);
    if n0 >= n1 {
      choice := pos[0];
      assert LargestAt(row, outside, pos, 2, 0);
    } else {
      choice := pos[1];
      assert LargestAt(row, outside, pos, 2, 1);
    }
  }

  method Choose(q: seq<int>, row: seq<int>, outside: int -> int, val: seq<int>, pos: seq<int>) returns (choice: int)
    requires Ranked(q, val, pos)
    ensures WellChosen(q, row, outside, val, pos, choice)
  {
    if val[0] == val[1] && val[1] == val[2] {
      if pos[1] == pos[0] + 1 && pos[2] == pos[1] + 1 {
        choice := pos[1];
      } else {
        choice := OfThree(row, outside, pos);
      }
    } else if val[0] == val[1] {
      choice := OfTwo(row, outside, pos);
    } else {
      choice := pos[0];
    }
  }

  /** A tie between the two best is broken by the cells next to them. */
  lemma TieBreak(q: seq<int>, row: seq<int>, outside: int -> int, val: seq<int>, pos: seq<int>, choice: int, l: nat)
    requires |val| == |pos| == 3 && WellChosen(q, row, outside, val, pos, choice) && val[0] == val[1] > val[2] && l < 2
    requires forall k :: 0 <= k < 2 ==> 0 < pos[k] < |row| - 1
    ensures 0 < choice < |row| - 1 && choice in pos[..2]
    ensures row[choice - 1] + row[choice + 1] >= row[pos[l] - 1] + row[pos[l] + 1]
  {
    var k :| 0 <= k < 2 && choice == pos[k] && LargestAt(row, outside, pos, 2, k);
    assert Neighbours(row, outside, pos[l]) <= Neighbours(row, outside, pos[k]);
  }

  // ----- what the choice prefers

  /** The total width of an experiment, and the sum of the squared widths. */
  function Total(x: seq<int>, i: nat): int
    requires 8 * i + 8 <= |x|
  {
    Width(x, i, 0) + Width(x, i, 1) + Width(x, i, 2) + Width(x, i, 3)
  }

  function SquareSum(x: seq<int>, i: nat): int
    requires 8 * i + 8 <= |x|
  {
    Width(x, i, 0) * Width(x, i, 0) + Width(x, i, 1) * Width(x, i, 1) +
    Width(x, i, 2) * Width(x, i, 2) + Width(x, i, 3) * Width(x, i, 3)
  }

  /** The quality of every experiment with four open lanes. */
  ghost predicate OpenQualities(x: seq<int>, q: seq<int>) {
    && |x| == 8 * |q|
    && forall i :: 0 <= i < |q| && AllOpen(x, i) ==>
         q[i] == Total(x, i) * Total(x, i) - (2 * (Total(x, i) * Total(x, i)) + SquareSum(x, i)) / 4
  }

  lemma QualitiesOfOpen(x: seq<int>, q: seq<int>)
    requires |x| == 8 * |q| && forall i :: 0 <= i < |q| ==> q[i] == Quality(x, i)
    ensures OpenQualities(x, q)
  {
    forall i | 0 <= i < |q| && AllOpen(x, i)
      ensures q[i] == Total(x, i) * Total(x, i) - (2 * (Total(x, i) * Total(x, i)) + SquareSum(x, i)) / 4
    {
      OpenScore(Width(x, i, 0), Width(x, i, 1), Width(x, i, 2), Width(x, i, 3));
    }
  }

  /** Of two open experiments with the same total width the more even one never scores lower. */
  lemma EvenQuality(x: seq<int>, i: nat, k: nat)
    requires 8 * i + 8 <= |x| && 8 * k + 8 <= |x| && AllOpen(x, i) && AllOpen(x, k) && Total(x, i) == Total(x, k)
    ensures SquareSum(x, i) <= SquareSum(x, k) ==> Quality(x, i) >= Quality(x, k)
    ensures SquareSum(x, i) + 4 <= SquareSum(x, k) ==> Quality(x, i) > Quality(x, k)
  {
    EvenLanesScore(Width(x, i, 0), Width(x, i, 1), Width(x, i, 2), Width(x, i, 3),
                   Width(x, k, 0), Width(x, k, 1), Width(x, k, 2), Width(x, k, 3));
  }

  /** No open experiment of the same total width is clearly more even than the chosen one. */
  ghost predicate Evenest(x: seq<int>, cnt: nat, choice: int)
    requires |x| == 8 * cnt
  {
    forall i :: 0 <= i < cnt && AllOpen(x, i) && 0 <= choice < cnt && Total(x, i) == Total(x, choice) ==>
      SquareSum(x, choice) <= SquareSum(x, i) + 3
  }

  lemma ChoiceIsEvenest(x: seq<int>, cnt: nat, choice: int)
    requires |x| == 8 * cnt
    requires 0 <= choice < cnt ==> forall k :: 0 <= k < cnt ==> Quality(x, k) <= Quality(x, choice)
    requires forall i :: 0 <= i < cnt && AllOpen(x, i) ==> 0 <= choice < cnt && AllOpen(x, choice)
    ensures Evenest(x, cnt, choice)
  {
    forall i | 0 <= i < cnt && AllOpen(x, i) && 0 <= choice < cnt && Total(x, i) == Total(x, choice)
      ensures SquareSum(x, choice) <= SquareSum(x, i) + 3
    {
      EvenQuality(x, i, choice);
    }
  }

  /** If any experiment has four open lanes, one of maximal quality has four open lanes too. */
  lemma BestIsOpen(x: seq<int>, cnt: nat, choice: int, i: nat)
    requires |x| == 8 * cnt && i < cnt && AllOpen(x, i)
    requires choice == -1 <==> forall k :: 0 <= k < cnt ==> Quality(x, k) <= -9999
    requires choice != -1 ==> 0 <= choice < cnt && forall k :: 0 <= k < cnt ==> Quality(x, k) <= Quality(x, choice)
    ensures 0 <= choice < cnt && AllOpen(x, choice)
    ensures 4 * Quality(x, choice) >= Square(Width(x, i, 0) + Width(x, i, 1) + Width(x, i, 2) + Width(x, i, 3))
  {
    OpenScores(Width(x, i, 0), Width(x, i, 1), Width(x, i, 2), Width(x, i, 3));
    assert Quality(x, i) > 0;
    if !AllOpen(x, choice) {
      ClosedScores(Width(x, choice, 0), Width(x, choice, 1), Width(x, choice, 2), Width(x, choice, 3));
      assert false;
    }
  }

  /** find_best_eye, whatever lies outside the quality array. The index is -1 exactly when
      no experiment scores above -9999; otherwise it is an experiment of maximal quality, with
      four open lanes if any experiment has them. */
  method FindBestEye(x: seq<int>, cnt: nat, qual1: array<int>, qual2: array<int>, qual3: array<int>, qual4: array<int>,
                     outside: int -> int)
    returns (choice: int, val: seq<int>, pos: seq<int>)
    requires |x| == 8 * cnt && cnt <= qual1.Length && cnt <= qual2.Length && cnt <= qual3.Length && cnt <= qual4.Length
    requires qual1 != qual2 && qual1 != qual3 && qual1 != qual4 && qual2 != qual3 && qual2 != qual4 && qual3 != qual4
    modifies qual1, qual2, qual3, qual4
    ensures forall i :: 0 <= i < cnt ==> qual3[i] == qual4[i] == Quality(x, i)
    ensures choice == -1 <==> forall i :: 0 <= i < cnt ==> Quality(x, i) <= -9999
    ensures choice != -1 ==> 0 <= choice < cnt && forall i :: 0 <= i < cnt ==> Quality(x, i) <= Quality(x, choice)
    ensures forall i :: 0 <= i < cnt && AllOpen(x, i) ==>
              && 0 <= choice < cnt && AllOpen(x, choice)
              && 4 * Quality(x, choice) >= Square(Width(x, i, 0) + Width(x, i, 1) + Width(x, i, 2) + Width(x, i, 3))
    ensures OpenQualities(x, qual3[..cnt]) && Evenest(x, cnt, choice)
    ensures Ranked(qual3[..cnt], val, pos) && WellChosen(qual3[..cnt], qual3[..], outside, val, pos, choice)
  {
    Qualities(x, cnt, qual1, qual2, qual3, qual4);
    var q := qual3[..cnt];
    var val0, pos0 := FindMax(q, {});
    var val1, pos1 := FindMax(q, {pos0});
    var val2, pos2 := FindMax(q, {pos0, pos1});
    val, pos := [val0, val1, val2], [pos0, pos1, pos2];
    choice := Choose(q, qual3[..], outside, val, pos);
    assert forall i :: 0 <= i < cnt ==> q[i] == Quality(x, i);
    forall i | 0 <= i < cnt && AllOpen(x, i)
      ensures 0 <= choice < cnt && AllOpen(x, choice)
      ensures 4 * Quality(x, choice) >= Square(Width(x, i, 0) + Width(x, i, 1) + Width(x, i, 2) + Width(x, i, 3))
    {
      BestIsOpen(x, cnt, choice, i);
    }
    QualitiesOfOpen(x, q);
    ChoiceIsEvenest(x, cnt, choice);
  }

  /** No 32-bit overflow on any experiment of sweep results. */
  lemma SweepInRange(x: seq<int>, i: nat)
    requires SweepResults(x) && 8 * i + 8 <= |x|
    ensures Int32(Quality(x, i))
    ensures forall j :: 0 <= j < 4 ==> -19998 <= Width(x, i, j) <= 128
  {
    forall j | 0 <= j < 4 ensures -19998 <= Width(x, i, j) <= 128 {
      assert SweepPair(x[2 * (4 * i + j)], x[2 * (4 * i + j) + 1]);
    }
    NoOverflow(Width(x, i, 0), Width(x, i, 1), Width(x, i, 2), Width(x, i, 3));
  }
}
