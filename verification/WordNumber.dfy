/** The number that a 32-bit word stands for, and what masks, shifts and sums do to it. */
module WordNumber {
  import opened Arithmetic
  import opened BitField
  import opened BitSet
  import opened ByteOrder

  /** The bits of a word. */
  const WIDTH: nat := 32

  predicate Low(x: bv32) {
    x & 1 != 0
  }

  /** The number in the low `n` bits of a word. */
  function Bits(x: bv32, n: nat): nat {
    if n == 0 then 0 else 2 * Bits(Half(x), n - 1) + if Low(x) then 1 else 0
  }

  lemma {:induction false} BitsBound(x: bv32, n: nat)
    ensures Bits(x, n) < Pow2(n)
  {
    if n > 0 {
      BitsBound(Half(x), n - 1);
    }
  }

  lemma Pow32()
    ensures Pow2(32) == 0x1_0000_0000 && Pow2(24) == 0x100_0000 && Pow2(16) == 0x1_0000
    ensures Pow2(10) == 1024 && Pow2(7) == 128 && Pow2(4) == 16
  {
    assert Pow2(8) == 256;
    assert Pow2(28) == 0x1000_0000 && Pow2(20) == 0x10_0000;
  }

  /** The number in a word. */
  function Number(x: bv32): Word {
    BitsBound(x, WIDTH);
    Pow32();
    Bits(x, WIDTH)
  }

  function WithLow(x: bv32, on: bool): bv32 {
    if on then Double(x) | 1 else Double(x)
  }

  /** The word with the low `n` bits of a number. */
  function FromBits(v: int, n: nat): bv32
    decreases n, v
  {
    if n == 0 then 0 else WithLow(FromBits(v / 2, n - 1), v % 2 == 1)
  }

  /** The word for a number, modulo 2^32: also a negative C int as an unsigned word. */
  function ToWord(v: int): bv32 {
    FromBits(v, WIDTH)
  }

  // ----- there and back

  lemma WithLowAt(x: bv32, on: bool, m: bv32)
    requires And(x, m) == x && And(m, 0x7fff_ffff) == m
    ensures Half(WithLow(x, on)) == x && Low(WithLow(x, on)) == on
    ensures And(WithLow(x, on), Grow(m)) == WithLow(x, on)
  {
  }

  lemma {:induction false} FromBitsWithin(v: int, n: nat)
    requires n <= 32
    ensures And(FromBits(v, n), Ones(n)) == FromBits(v, n)
    ensures n > 0 ==> Half(FromBits(v, n)) == FromBits(v / 2, n - 1) && (Low(FromBits(v, n)) <==> v % 2 == 1)
    decreases n
  {
    if n == 0 {
      NoOnes(0);
    } else {
      FromBitsWithin(v / 2, n - 1);
      OnesNext(n - 1);
      OnesWithin(n - 1, 31);
      Ones31();
      WithLowAt(FromBits(v / 2, n - 1), v % 2 == 1, Ones(n - 1));
    }
  }

  lemma {:induction false} BitsOfFromBits(v: int, n: nat)
    requires n <= 32
    ensures Bits(FromBits(v, n), n) == v % Pow2(n)
    decreases n
  {
    if n > 0 {
      FromBitsWithin(v, n);
      BitsOfFromBits(v / 2, n - 1);
      HalfMod(v, Pow2(n - 1));
    }
  }

  lemma HalfMod(v: int, p: nat)
    requires p > 0
    ensures v % (2 * p) == 2 * (v / 2 % p) + v % 2
  {
    var h, q := v / 2, v / 2 / p;
    assert h == q * p + h % p;
    assert v == q * (2 * p) + (2 * (h % p) + v % 2) by { assert q * (2 * p) == 2 * (q * p); }
    DivMod(q, 2 * p, 2 * (h % p) + v % 2);
  }

  lemma {:induction false} FromBitsSmall(v: nat, n: nat, m: nat)
    requires v < Pow2(n) && n <= m
    ensures FromBits(v, m) == FromBits(v, n)
    decreases n
  {
    if n > 0 {
      FromBitsSmall(v / 2, n - 1, m - 1);
    } else {
      FromZero(m);
    }
  }

  /** A number becomes the word of that number, modulo 2^32. */
  lemma NumberOfWord(v: int)
    ensures Number(ToWord(v)) == v % 0x1_0000_0000
  {
    Pow32();
    BitsOfFromBits(v, WIDTH);
  }

  lemma NumberOfSmall(v: nat)
    requires v < 0x1_0000_0000
    ensures Number(ToWord(v)) == v
  {
    NumberOfWord(v);
    ModSmall(v, 0x1_0000_0000);
  }

  // ----- masks and shifts

  lemma HalfMasked(x: bv32, m: bv32)
    requires And(m, 0x7fff_ffff) == m
    ensures Half(And(x, Grow(m))) == And(Half(x), m) && Low(And(x, Grow(m))) == Low(x)
  {
  }

  lemma {:induction false} BitsMasked(x: bv32, k: nat, n: nat)
    requires k <= n && k <= 32
    ensures Bits(And(x, Ones(k)), n) == Bits(x, k)
  {
    if k == 0 {
      NoBits(x, n);
    } else {
      OnesNext(k - 1);
      OnesWithin(k - 1, 31);
      Ones31();
      HalfMasked(x, Ones(k - 1));
      BitsMasked(Half(x), k - 1, n - 1);
    }
  }

  lemma {:induction false} NoBits(x: bv32, n: nat)
    ensures Bits(And(x, Ones(0)), n) == 0
  {
    Nothing(x);
    if n > 0 {
      NoBits(x, n - 1);
    }
  }

  lemma Nothing(x: bv32)
    ensures And(x, 0) == 0 && Half(0) == 0 && !Low(0)
  {
  }

  lemma {:induction false} BitsMod(x: bv32, k: nat, n: nat)
    requires k <= n
    ensures Bits(x, k) == Bits(x, n) % Pow2(k)
  {
    if k > 0 {
      BitsMod(Half(x), k - 1, n - 1);
      HalfMod(Bits(x, n), Pow2(k - 1));
    }
  }

  /** A mask of `k` ones leaves the remainder modulo 2^k. */
  lemma NumberMasked(x: bv32, k: nat)
    requires k <= 32
    ensures Number(And(x, Ones(k))) == Number(x) % Pow2(k)
  {
    BitsMasked(x, k, WIDTH);
    BitsMod(x, k, WIDTH);
  }

  lemma HalfBits(x: bv32)
    ensures Bits(Half(x), WIDTH) == Bits(x, WIDTH) / 2
  {
    BitsMod(Half(x), 31, WIDTH);
    BitsMasked(Half(x), 31, WIDTH);
    TopClear(x);
  }

  lemma TopClear(x: bv32)
    ensures And(Half(x), Ones(31)) == Half(x)
  {
    Ones31();
    TopClearAt(x);
  }

  lemma TopClearAt(x: bv32)
    ensures And(Half(x), 0x7fff_ffff) == Half(x)
  {
  }

  /** A shift to the right by `k` divides by 2^k. */
  lemma {:induction false} NumberShifted(x: bv32, k: nat)
    ensures Number(Shr(x, k)) == Number(x) / Pow2(k)
  {
    if k > 0 {
      NumberShifted(x, k - 1);
      HalfBits(Shr(x, k - 1));
      DivDiv(Number(x), Pow2(k - 1));
    }
  }

  lemma DivDiv(v: nat, p: nat)
    requires p > 0
    ensures v / p / 2 == v / (2 * p)
  {
    var q, r := v / p / 2, v / p % 2;
    assert v == (2 * q + r) * p + v % p;
    assert (2 * q + r) * p == q * (2 * p) + r * p;
    assert r * p <= p;
    DivMod(q, 2 * p, r * p + v % p);
  }

  lemma LowIsOdd(x: bv32)
    ensures Low(x) <==> Number(x) % 2 == 1
  {
  }

  /** Bit `k` of a word, as a mask or a shift finds it, is that bit of its number. */
  lemma BitAt(x: bv32, k: nat)
    ensures Low(Shr(x, k)) <==> Number(x) / Pow2(k) % 2 == 1
  {
    NumberShifted(x, k);
    LowIsOdd(Shr(x, k));
  }

  lemma MaskStep(b: nat)
    requires 0 < b < 16
    ensures Mask(b) == Double(Mask(b - 1)) && Mask(0) == 1
  {
  }

  /** The masks are the words 1 << b. */
  lemma {:induction false} MaskIsShift(b: nat)
    requires b < 16
    ensures Mask(b) == Shl(1, b)
  {
    if b > 0 {
      MaskStep(b);
      MaskIsShift(b - 1);
    }
  }

  // ----- counting up, and sums

  function Successor(x: bv32): bv32 {
    x + 1
  }

  lemma SuccessorOfEven(x: bv32)
    requires !Low(x)
    ensures Half(Successor(x)) == Half(x) && Low(Successor(x))
  {
  }

  lemma SuccessorOfOdd(x: bv32)
    requires Low(x) && x != 0xffff_ffff
    ensures Half(Successor(x)) == Successor(Half(x)) && !Low(Successor(x)) && Half(x) != 0xffff_ffff
  {
  }

  lemma {:induction false} BitsOfSuccessor(x: bv32, n: nat)
    requires x != 0xffff_ffff
    ensures Bits(Successor(x), n) == (Bits(x, n) + 1) % Pow2(n)
  {
    if n > 0 {
      SuccessorBits(x, n);
      if Low(x) {
        SuccessorOfOdd(x);
        BitsOfSuccessor(Half(x), n - 1);
        OddCount(Bits(Half(x), n - 1), Pow2(n - 1));
      } else {
        BitsBound(Half(x), n - 1);
        EvenCount(Bits(Half(x), n - 1), Pow2(n - 1));
      }
    }
  }

  lemma SuccessorBits(x: bv32, n: nat)
    requires x != 0xffff_ffff && n > 0
    ensures Bits(Successor(x), n) ==
            if Low(x) then 2 * Bits(Successor(Half(x)), n - 1) else 2 * Bits(Half(x), n - 1) + 1
  {
    if Low(x) {
      SuccessorOfOdd(x);
    } else {
      SuccessorOfEven(x);
    }
  }

  lemma OddCount(b: nat, p: nat)
    requires p > 0
    ensures (2 * b + 1 + 1) % (2 * p) == 2 * ((b + 1) % p)
  {
    HalfMod(2 * b + 2, p);
  }

  lemma EvenCount(b: nat, p: nat)
    requires b < p
    ensures (2 * b + 1) % (2 * p) == 2 * b + 1
  {
    ModSmall(2 * b + 1, 2 * p);
  }

  lemma {:induction false} BitsOfOnes(n: nat)
    requires n <= 32
    ensures Bits(Ones(n), n) == Pow2(n) - 1
  {
    if n > 0 {
      BitsOfOnes(n - 1);
      OnesNext(n - 1);
      OnesWithin(n - 1, 31);
      Ones31();
      HalfGrow(Ones(n - 1));
      LowGrow(Ones(n - 1));
    }
  }

  lemma LowGrow(m: bv32)
    ensures Low(Grow(m))
  {
  }

  lemma NumberOfSuccessor(x: bv32)
    requires Number(x) < 0xffff_ffff
    ensures Number(Successor(x)) == Number(x) + 1
  {
    NumberOfOnes();
    SuccessorMod(x, Number(x));
    ModSmall(Number(x) + 1, 0x1_0000_0000);
  }

  lemma NumberOfOnes()
    ensures Number(0xffff_ffff) == 0xffff_ffff
  {
    Pow32();
    BitsOfOnes(32);
    Ones31();
    OnesNext(31);
  }

  lemma SuccessorMod(x: bv32, n: nat)
    requires x != 0xffff_ffff && Number(x) == n
    ensures Number(Successor(x)) == (n + 1) % 0x1_0000_0000
  {
    Pow32();
    SuccessorModulo(x, WIDTH, n, 0x1_0000_0000);
  }

  lemma SuccessorModulo(x: bv32, w: nat, n: nat, p: nat)
    requires x != 0xffff_ffff && Bits(x, w) == n && Pow2(w) == p
    ensures Bits(Successor(x), w) == (n + 1) % p
  {
    BitsOfSuccessor(x, w);
  }

  lemma NextWord(x: bv32)
    ensures WithLow(x, true) == Successor(WithLow(x, false))
    ensures WithLow(Successor(x), false) == Successor(WithLow(x, true))
  {
  }

  lemma {:induction false} FromBitsNext(v: nat, n: nat)
    requires v + 1 < Pow2(n)
    ensures FromBits(v + 1, n) == Successor(FromBits(v, n))
    decreases n
  {
    NextWord(FromBits(v / 2, n - 1));
    if v % 2 == 1 {
      FromBitsNext(v / 2, n - 1);
      assert (v + 1) / 2 == v / 2 + 1;
    }
  }

  lemma SumNext(x: bv32, y: bv32)
    ensures Sum(x, Successor(y)) == Successor(Sum(x, y)) && Sum(x, 0) == x
  {
  }

  lemma {:induction false} FromZero(n: nat)
    ensures FromBits(0, n) == 0
  {
    if n > 0 {
      FromZero(n - 1);
    }
  }

  /** Adding a number to a word adds it to the word's number, as long as it fits. */
  lemma {:induction false} NumberOfSum(x: bv32, v: nat)
    requires Number(x) + v < 0x1_0000_0000
    ensures Number(Sum(x, ToWord(v))) == Number(x) + v
  {
    if v == 0 {
      FromZero(32);
      SumNext(x, 0);
    } else {
      NumberOfSum(x, v - 1);
      SumOfWord(x, v - 1);
      NumberOfSuccessor(Sum(x, ToWord(v - 1)));
    }
  }

  lemma SumOfWord(x: bv32, v: nat)
    requires v < 0xffff_ffff
    ensures Sum(x, ToWord(v + 1)) == Successor(Sum(x, ToWord(v)))
  {
    Pow32();
    FromBitsNext(v, WIDTH);
    SumNext(x, ToWord(v));
  }

}
