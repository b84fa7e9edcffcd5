/** Bit fields of 32-bit words: masks, shifts, and what setting a field does. */
module BitField {
  import BitSet
  import opened Iteration

  // ----- shifts and masks

  function Double(x: bv32): bv32 {
    x << 1
  }

  function Half(x: bv32): bv32 {
    x >> 1
  }

  /** The C shifts x << n and, of an unsigned word, x >> n, as n single ones. */
  function Shl(x: bv32, n: nat): bv32 {
    Iter(Double, x, n)
  }

  function Shr(x: bv32, n: nat): bv32 {
    Iter(Half, x, n)
  }

  /** One arithmetic shift: the sign bit stays. */
  function HalfSigned(x: bv32): bv32 {
    (x >> 1) | (x & 0x8000_0000)
  }

  /** x >> n of a C int. */
  function Sar(x: bv32, n: nat): bv32 {
    Iter(HalfSigned, x, n)
  }

  function Grow(mask: bv32): bv32 {
    (mask << 1) | 1
  }

  /** A mask of `width` ones. */
  function Ones(width: nat): bv32 {
    if width == 0 then 0 else Grow(Ones(width - 1))
  }

  function And(x: bv32, y: bv32): bv32 {
    x & y
  }

  function Or(x: bv32, y: bv32): bv32 {
    x | y
  }

  lemma DoubleAndAt(x: bv32, y: bv32)
    ensures Double(And(x, y)) == And(Double(x), Double(y))
  {
  }

  lemma DoubleAnd()
    ensures Additive(Double, And)
  {
    forall x, y ensures AdditiveAt(Double, And, x, y) {
      DoubleAndAt(x, y);
    }
  }

  lemma DoubleOrAt(x: bv32, y: bv32)
    ensures Double(Or(x, y)) == Or(Double(x), Double(y))
  {
  }

  lemma DoubleOr()
    ensures Additive(Double, Or)
  {
    forall x, y ensures AdditiveAt(Double, Or, x, y) {
      DoubleOrAt(x, y);
    }
  }

  lemma HalfAndAt(x: bv32, y: bv32)
    ensures Half(And(x, y)) == And(Half(x), Half(y))
  {
  }

  lemma HalfAnd()
    ensures Additive(Half, And)
  {
    forall x, y ensures AdditiveAt(Half, And, x, y) {
      HalfAndAt(x, y);
    }
  }

  lemma HalfOrAt(x: bv32, y: bv32)
    ensures Half(Or(x, y)) == Or(Half(x), Half(y))
  {
  }

  lemma HalfOr()
    ensures Additive(Half, Or)
  {
    forall x, y ensures AdditiveAt(Half, Or, x, y) {
      HalfOrAt(x, y);
    }
  }

  /** Shifts respect the bitwise operations. */
  lemma ShlAnd(x: bv32, y: bv32, n: nat)
    ensures Shl(And(x, y), n) == And(Shl(x, n), Shl(y, n))
  {
    DoubleAnd();
    IterLinear(Double, And, x, y, n);
  }

  lemma ShlOr(x: bv32, y: bv32, n: nat)
    ensures Shl(Or(x, y), n) == Or(Shl(x, n), Shl(y, n))
  {
    DoubleOr();
    IterLinear(Double, Or, x, y, n);
  }

  lemma ShrAnd(x: bv32, y: bv32, n: nat)
    ensures Shr(And(x, y), n) == And(Shr(x, n), Shr(y, n))
  {
    HalfAnd();
    IterLinear(Half, And, x, y, n);
  }

  lemma ShrOr(x: bv32, y: bv32, n: nat)
    ensures Shr(Or(x, y), n) == Or(Shr(x, n), Shr(y, n))
  {
    HalfOr();
    IterLinear(Half, Or, x, y, n);
  }

  lemma ShrZero(n: nat)
    ensures Shr(0, n) == 0
  {
    IterFixed(Half, 0, n);
  }

  // ----- shifting up and down again

  function UpDown(x: bv32, n: nat): bv32 {
    Shr(Shl(x, n), n)
  }

  lemma UpDownAnd(x: bv32, y: bv32, n: nat)
    ensures UpDown(And(x, y), n) == And(UpDown(x, n), UpDown(y, n))
  {
    ShlAnd(x, y, n);
    ShrAnd(Shl(x, n), Shl(y, n), n);
  }

  lemma UpDownOr(x: bv32, y: bv32, n: nat)
    ensures UpDown(Or(x, y), n) == Or(UpDown(x, n), UpDown(y, n))
  {
    ShlOr(x, y, n);
    ShrOr(Shl(x, n), Shl(y, n), n);
  }

  /** One step of that clears the top bit. */
  lemma UpDownOne(x: bv32)
    ensures Half(Double(x)) == And(x, 0x7fff_ffff)
  {
  }

  lemma UpDownNext(x: bv32, n: nat)
    ensures UpDown(x, n + 1) == And(UpDown(x, n), Shr(0x7fff_ffff, n))
  {
    var y := Shl(x, n);
    assert Shl(x, n + 1) == Double(y);
    IterAdd(Half, Double(y), 1, n);
    HalfOnce(Double(y));
    UpDownOne(y);
    ShrAnd(y, 0x7fff_ffff, n);
  }

  lemma HalfOnce(y: bv32)
    ensures Iter(Half, y, 1) == Half(y)
  {
    assert Iter(Half, y, 1) == Half(Iter(Half, y, 0));
  }

  /** No bit appears. */
  lemma {:induction false} NoNewBit(x: bv32, n: nat)
    ensures And(UpDown(x, n), !x) == 0
  {
    if n == 0 {
      NoBoth(x);
    } else {
      NoNewBit(x, n - 1);
      UpDownNext(x, n - 1);
      FewerBits(UpDown(x, n - 1), Shr(0x7fff_ffff, n - 1), !x);
    }
  }

  lemma NoBoth(x: bv32)
    ensures And(x, !x) == 0
  {
  }

  lemma FewerBits(x: bv32, y: bv32, z: bv32)
    requires And(x, z) == 0
    ensures And(And(x, y), z) == 0
  {
  }

  /** A mask that survives keeps the bits of every word under it. */
  lemma Survives(v: bv32, mask: bv32, n: nat)
    requires UpDown(mask, n) == mask
    ensures UpDown(And(v, mask), n) == And(v, mask)
  {
    UpDownAnd(v, mask, n);
    NoNewBit(v, n);
    NoNewBit(!v, n);
    UpDownOr(v, !v, n);
    UpDownAnd(mask, Or(v, !v), n);
    UnderMask(v, mask, UpDown(v, n), UpDown(!v, n));
    AllBits(v, mask);
  }

  lemma AllBits(v: bv32, mask: bv32)
    ensures And(mask, Or(v, !v)) == mask
  {
  }

  lemma UnderMask(v: bv32, mask: bv32, a: bv32, b: bv32)
    requires And(a, !v) == 0 && And(b, !!v) == 0 && mask == And(mask, Or(a, b))
    ensures And(a, mask) == And(v, mask)
  {
  }

  // ----- fields

  /** `v` under the mask `m`, `data` elsewhere. */
  function Merge(data: bv32, m: bv32, v: bv32): bv32 {
    Sum(And(data, !m), v)
  }

  function Sum(x: bv32, y: bv32): bv32 {
    x + y
  }

  /** get_bit_field and set_bit_field once their masks are built. */
  function Get(x: bv32, lsb: nat, mask: bv32): bv32 {
    And(Sar(x, lsb), mask)
  }

  function Set(data: bv32, lsb: nat, mask: bv32, val: bv32): bv32 {
    Merge(data, Shl(mask, lsb), Shl(And(val, mask), lsb))
  }

  function GetField(x: bv32, lsb: nat, width: nat): bv32 {
    Get(x, lsb, Ones(width))
  }

  function SetField(data: bv32, lsb: nat, width: nat, val: bv32): bv32 {
    Set(data, lsb, Ones(width), val)
  }

  /** The field lies inside the 32 bits. */
  predicate Fits(lsb: nat, width: nat) {
    UpDown(Ones(width), lsb) == Ones(width)
  }

  lemma ValueUnderMask(lsb: nat, mask: bv32, val: bv32)
    ensures And(Shl(And(val, mask), lsb), !Shl(mask, lsb)) == 0
  {
    ShlAnd(val, mask, lsb);
    UnderItself(Shl(val, lsb), Shl(mask, lsb));
  }

  lemma UnderItself(x: bv32, m: bv32)
    ensures And(And(x, m), !m) == 0
  {
  }

  /** The two summands have no bit in common, so nothing carries. */
  lemma NoCarry(data: bv32, m: bv32, v: bv32)
    requires And(v, !m) == 0
    ensures Merge(data, m, v) == Or(And(data, !m), v)
  {
    Apart(data, m, v);
    DisjointSum(And(data, !m), v);
  }

  lemma Apart(data: bv32, m: bv32, v: bv32)
    requires And(v, !m) == 0
    ensures And(And(data, !m), v) == 0
  {
  }

  lemma DisjointSum(x: bv32, y: bv32)
    requires And(x, y) == 0
    ensures Sum(x, y) == Or(x, y)
  {
    BitSet.NoCarry(x, y);
  }

  lemma MergeFrame(data: bv32, m: bv32, v: bv32)
    requires And(v, !m) == 0
    ensures And(Merge(data, m, v), !m) == And(data, !m)
  {
    NoCarry(data, m, v);
  }

  lemma MergeAbsorbs(data: bv32, m: bv32, v: bv32, v': bv32, once: bv32)
    requires And(v, !m) == 0 && once == Merge(data, m, v)
    ensures Merge(once, m, v') == Merge(data, m, v')
  {
    MergeFrame(data, m, v);
    SameOutside(once, data, m, v');
  }

  lemma SameOutside(a: bv32, b: bv32, m: bv32, v: bv32)
    requires And(a, !m) == And(b, !m)
    ensures Merge(a, m, v) == Merge(b, m, v)
  {
    SameSum(And(a, !m), And(b, !m), v);
  }

  lemma SameSum(a: bv32, b: bv32, v: bv32)
    requires a == b
    ensures Sum(a, v) == Sum(b, v)
  {
  }

  /** Setting a field changes no bit outside it. */
  lemma SetFrame(data: bv32, lsb: nat, mask: bv32, val: bv32)
    ensures And(Set(data, lsb, mask, val), !Shl(mask, lsb)) == And(data, !Shl(mask, lsb))
  {
    ValueUnderMask(lsb, mask, val);
    MergeFrame(data, Shl(mask, lsb), Shl(And(val, mask), lsb));
  }

  /** So the last write to a field wins. */
  lemma SetAbsorbs(data: bv32, lsb: nat, mask: bv32, val: bv32, val': bv32)
    ensures Set(Set(data, lsb, mask, val), lsb, mask, val') == Set(data, lsb, mask, val')
  {
    ValueUnderMask(lsb, mask, val);
    MergeAbsorbs(data, Shl(mask, lsb), Shl(And(val, mask), lsb), Shl(And(val', mask), lsb), Set(data, lsb, mask, val));
  }

  /** And reading it back gives the value, cut to the field. */
  lemma SetThenGet(data: bv32, lsb: nat, mask: bv32, val: bv32)
    requires UpDown(mask, lsb) == mask
    ensures And(Shr(Set(data, lsb, mask, val), lsb), mask) == And(val, mask)
  {
    var m, v := Shl(mask, lsb), Shl(And(val, mask), lsb);
    ValueUnderMask(lsb, mask, val);
    NoCarry(data, m, v);
    ShrOr(And(data, !m), v, lsb);
    ShrAnd(data, !m, lsb);
    OutsideMask(mask, lsb);
    Survives(val, mask, lsb);
    Extract(Shr(data, lsb), Shr(!m, lsb), mask, val, Shr(Merge(data, m, v), lsb));
  }

  lemma OutsideMask(mask: bv32, lsb: nat)
    requires UpDown(mask, lsb) == mask
    ensures And(mask, Shr(!Shl(mask, lsb), lsb)) == 0
  {
    var m := Shl(mask, lsb);
    ShrAnd(m, !m, lsb);
    NoBoth(m);
    ShrZero(lsb);
  }

  lemma Extract(d: bv32, rest: bv32, mask: bv32, val: bv32, x: bv32)
    requires And(mask, rest) == 0 && x == Or(And(d, rest), And(val, mask))
    ensures And(x, mask) == And(val, mask)
  {
  }

  // ----- fields that lie inside the word

  lemma OnesNext(k: nat)
    ensures Ones(k + 1) == Grow(Ones(k))
  {
  }

  lemma GrowWithin(x: bv32, y: bv32)
    requires And(x, y) == x
    ensures And(Grow(x), Grow(y)) == Grow(x)
  {
  }

  lemma {:induction false} OnesWithin(k: nat, n: nat)
    requires k <= n
    ensures And(Ones(k), Ones(n)) == Ones(k)
  {
    if k == 0 {
      NoOnes(Ones(n));
    } else {
      OnesWithin(k - 1, n - 1);
      OnesNext(k - 1);
      OnesNext(n - 1);
      GrowWithin(Ones(k - 1), Ones(n - 1));
    }
  }

  lemma NoOnes(x: bv32)
    ensures And(0, x) == 0
  {
  }

  lemma Ones31()
    ensures Ones(31) == 0x7fff_ffff && Ones(4) == 0xf && Ones(7) == 0x7f && Ones(10) == 0x3ff && Ones(16) == 0xffff
  {
    assert Ones(4) == 0xf && Ones(8) == 0xff && Ones(12) == 0xfff && Ones(16) == 0xffff;
    assert Ones(20) == 0xf_ffff && Ones(24) == 0xff_ffff && Ones(28) == 0xfff_ffff;
  }

  lemma HalfGrow(x: bv32)
    requires And(x, 0x7fff_ffff) == x
    ensures Half(Grow(x)) == x
  {
  }

  lemma {:induction false} ShrOnes(n: nat)
    requires n <= 31
    ensures Shr(0x7fff_ffff, n) == Ones(31 - n)
  {
    Ones31();
    if n > 0 {
      ShrOnes(n - 1);
      OnesNext(31 - n);
      OnesWithin(31 - n, 31);
      HalfGrow(Ones(31 - n));
    }
  }

  /** Every field inside the 32 bits fits. */
  lemma {:induction false} InsideFits(lsb: nat, width: nat)
    requires lsb + width <= 32
    ensures Fits(lsb, width)
  {
    if lsb > 0 {
      InsideFits(lsb - 1, width);
      UpDownNext(Ones(width), lsb - 1);
      ShrOnes(lsb - 1);
      OnesWithin(width, 32 - lsb);
    }
  }

  lemma HalfSignedMasked(y: bv32, m: bv32)
    requires And(m, 0x7fff_ffff) == m
    ensures And(HalfSigned(y), m) == Half(And(y, Grow(m)))
  {
  }

  /** The arithmetic shift differs from the logical one only in the bits that it fills. */
  lemma {:induction false} SarIsShr(x: bv32, n: nat)
    requires n <= 32
    ensures And(Sar(x, n), Ones(32 - n)) == Shr(x, n)
  {
    Ones31();
    if n == 0 {
      AllOnes(x);
    } else {
      SarIsShr(x, n - 1);
      OnesNext(32 - n);
      OnesWithin(32 - n, 31);
      HalfSignedMasked(Sar(x, n - 1), Ones(32 - n));
    }
  }

  lemma AllOnes(x: bv32)
    ensures And(x, Ones(32)) == x
  {
    Ones31();
    OnesNext(31);
  }

  /** So for a field inside the word it does not matter which one reads it; for a field that
      reaches beyond bit 31 the arithmetic shift gives copies of the sign bit. */
  lemma GetIsLogical(x: bv32, lsb: nat, width: nat)
    requires lsb + width <= 32
    ensures GetField(x, lsb, width) == And(Shr(x, lsb), Ones(width))
  {
    SarIsShr(x, lsb);
    OnesWithin(width, 32 - lsb);
    Narrow(Sar(x, lsb), Ones(32 - lsb), Ones(width));
  }

  lemma Narrow(x: bv32, wide: bv32, mask: bv32)
    requires And(mask, wide) == mask
    ensures And(And(x, wide), mask) == And(x, mask)
  {
  }

  /** Bits 33:24 of the word with only the sign bit set, read as a field of ten bits. */
  lemma SignCopies()
    ensures GetField(0x8000_0000, 24, 10) == 0x380 && And(Shr(0x8000_0000, 24), Ones(10)) == 0x80
  {
    Ones31();
    Down24(0x8000_0000);
    SarOfSign(24);
  }

  lemma SarOfSign(n: nat)
    requires n == 24
    ensures Sar(0x8000_0000, n) == 0xffff_ff80
  {
    var x: bv32 := 0x8000_0000;
    assert Iter(HalfSigned, x, 4) == 0xf800_0000 && Iter(HalfSigned, x, 8) == 0xff80_0000;
    IterAdd(HalfSigned, x, 8, 8);
    IterAdd(HalfSigned, x, 16, 8);
  }

  /** The single shifts add up to the shift by 24 that the write-eye sweep uses. */
  lemma Up1(x: bv32)
    ensures Shl(x, 1) == x << 1
  {
    assert Iter(Double, x, 1) == Double(Iter(Double, x, 0));
  }

  lemma Up2(x: bv32)
    ensures Shl(x, 2) == x << 2
  {
    Up1(x);
    Up1(x << 1);
    IterAdd(Double, x, 1, 1);
  }

  lemma Up4(x: bv32)
    ensures Shl(x, 4) == x << 4
  {
    Up2(x);
    Up2(x << 2);
    IterAdd(Double, x, 2, 2);
  }

  lemma Up8(x: bv32)
    ensures Shl(x, 8) == x << 8
  {
    Up4(x);
    Up4(x << 4);
    IterAdd(Double, x, 4, 4);
  }

  lemma Up16(x: bv32)
    ensures Shl(x, 16) == x << 16
  {
    Up8(x);
    Up8(x << 8);
    IterAdd(Double, x, 8, 8);
  }

  lemma Up24(x: bv32)
    ensures Shl(x, 24) == x << 24
  {
    Up16(x);
    Up8(x << 16);
    IterAdd(Double, x, 16, 8);
  }

  lemma Down1(x: bv32)
    ensures Shr(x, 1) == x >> 1
  {
    assert Iter(Half, x, 1) == Half(Iter(Half, x, 0));
  }

  lemma Down2(x: bv32)
    ensures Shr(x, 2) == x >> 2
  {
    Down1(x);
    Down1(x >> 1);
    IterAdd(Half, x, 1, 1);
  }

  lemma Down4(x: bv32)
    ensures Shr(x, 4) == x >> 4
  {
    Down2(x);
    Down2(x >> 2);
    IterAdd(Half, x, 2, 2);
  }

  lemma Down8(x: bv32)
    ensures Shr(x, 8) == x >> 8
  {
    Down4(x);
    Down4(x >> 4);
    IterAdd(Half, x, 4, 4);
  }

  lemma Down16(x: bv32)
    ensures Shr(x, 16) == x >> 16
  {
    Down8(x);
    Down8(x >> 8);
    IterAdd(Half, x, 8, 8);
  }

  lemma Down24(x: bv32)
    ensures Shr(x, 24) == x >> 24
  {
    Down16(x);
    Down8(x >> 16);
    IterAdd(Half, x, 16, 8);
  }

  /** The two fields of the write-eye sweep, in the operators of the language. */
  lemma OffsetExpressions(x: bv32, val: bv32)
    ensures GetField(x, 24, 7) == (x >> 24) & 0x7f
    ensures SetField(x, 24, 7, val) == (x & !(0x7f << 24)) + ((val & 0x7f) << 24)
  {
    Ones31();
    GetIsLogical(x, 24, 7);
    Down24(x);
    Up24(0x7f);
    Up24(And(val, 0x7f));
  }

  lemma RatioExpressions(x: bv32, val: bv32)
    ensures GetField(x, 0, 10) == x & 0x3ff
    ensures SetField(x, 0, 10, val) == (x & !0x3ff) + (val & 0x3ff)
  {
    Ones31();
    GetIsLogical(x, 0, 10);
  }

  // ----- the C functions

  /** The loop that builds a mask of `width` ones. */
  method BuildMask(width: nat) returns (mask: bv32)
    ensures mask == Ones(width)
  {
    mask := 0;
    for i := 0 to width
      invariant mask == Ones(i)
    {
      mask := Grow(mask);
    }
  }

  /** get_bit_field: (x >> bstart) & mask, the shift being that of an int. */
  method GetBitField(x: bv32, lsb: nat, width: nat) returns (dout: bv32)
    ensures dout == GetField(x, lsb, width)
  {
    var mask := BuildMask(width);
    dout := And(Sar(x, lsb), mask);
  }

  /** set_bit_field: (data & ~(mask << lsb)) + ((val & mask) << lsb). */
  method SetBitField(data: bv32, lsb: nat, width: nat, val: bv32) returns (dout: bv32)
    ensures dout == SetField(data, lsb, width, val)
  {
    var mask := BuildMask(width);
    var shMask := Shl(mask, lsb);
    dout := Sum(And(data, !shMask), Shl(And(val, mask), lsb));
  }

  /** Set and get: the value cut to the field; no bit outside the field changes. */
  lemma FieldRoundTrip(x: bv32, lsb: nat, width: nat, val: bv32)
    ensures And(SetField(x, lsb, width, val), !Shl(Ones(width), lsb)) == And(x, !Shl(Ones(width), lsb))
    ensures lsb + width <= 32 ==> GetField(SetField(x, lsb, width, val), lsb, width) == And(val, Ones(width))
  {
    KeepsOthers(x, lsb, width, val);
    if lsb + width <= 32 {
      ReadsBack(x, lsb, width, val);
    }
  }

  lemma KeepsOthers(x: bv32, lsb: nat, width: nat, val: bv32)
    ensures And(SetField(x, lsb, width, val), !Shl(Ones(width), lsb)) == And(x, !Shl(Ones(width), lsb))
  {
    SetFrame(x, lsb, Ones(width), val);
  }

  lemma ReadsBack(x: bv32, lsb: nat, width: nat, val: bv32)
    requires lsb + width <= 32
    ensures GetField(SetField(x, lsb, width, val), lsb, width) == And(val, Ones(width))
  {
    InsideFits(lsb, width);
    SetThenGet(x, lsb, Ones(width), val);
    GetIsLogical(SetField(x, lsb, width, val), lsb, width);
  }

  lemma FieldAbsorbs(x: bv32, lsb: nat, width: nat, v: bv32, v': bv32)
    ensures SetField(SetField(x, lsb, width, v), lsb, width, v') == SetField(x, lsb, width, v')
  {
    SetAbsorbs(x, lsb, Ones(width), v, v');
  }
}
