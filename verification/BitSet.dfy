/** Sets of small numbers in the bits of a 32-bit word. */
module BitSet {

  /** The C expression `1 << b`. */
  function Mask(b: nat): bv32
    requires b < 16
  {
    if b == 0 then 0x1 else if b == 1 then 0x2 else if b == 2 then 0x4 else if b == 3 then 0x8
    else if b == 4 then 0x10 else if b == 5 then 0x20 else if b == 6 then 0x40 else if b == 7 then 0x80
    else if b == 8 then 0x100 else if b == 9 then 0x200 else if b == 10 then 0x400 else if b == 11 then 0x800
    else if b == 12 then 0x1000 else if b == 13 then 0x2000 else if b == 14 then 0x4000 else 0x8000
  }

  predicate Has(s: bv32, b: nat)
    requires b < 16
  {
    s & Mask(b) != 0
  }

  /** The low 16 bits of `s` are the members of `found`; no other bit is set. */
  ghost predicate Encodes(s: bv32, found: set<nat>) {
    && s & 0xffff0000 == 0
    && (forall b :: 0 <= b < 16 ==> (Has(s, b) <==> b in found))
  }

  lemma MaskOr(s: bv32, c: nat, b: nat)
    requires b < 16 && c < 16
    ensures (s | Mask(c)) & Mask(b) != 0 <==> b == c || s & Mask(b) != 0
    ensures Mask(b) & 0xffff0000 == 0
    ensures 0xffff & Mask(b) != 0
  {
  }

  lemma EncodesNone()
    ensures Encodes(0, {})
  {
  }

  lemma EncodesMore(s: bv32, found: set<nat>, c: nat)
    requires Encodes(s, found) && c < 16
    ensures Encodes(s | Mask(c), found + {c})
  {
    var s' := s | Mask(c);
    forall b | 0 <= b < 16
      ensures Has(s', b) <==> b == c || Has(s, b)
    {
      MaskOr(s, c, b);
    }
    MaskOr(s, c, c);
  }

  /** Adding a bit that is not there yet carries nothing over. */
  lemma EncodesPlus(s: bv32, found: set<nat>, c: nat)
    requires Encodes(s, found) && c < 16 && c !in found
    ensures Encodes(s + Mask(c), found + {c})
  {
    assert !Has(s, c);
    NoCarry(s, Mask(c));
    EncodesMore(s, found, c);
  }

  function Plus(s: bv32, c: nat, add: bool): bv32
    requires c < 16
  {
    if add then s + Mask(c) else s
  }

  lemma EncodesIf(s: bv32, found: set<nat>, c: nat, add: bool, more: set<nat>)
    requires Encodes(s, found) && c < 16 && c !in found
    requires more == if add then found + {c} else found
    ensures Encodes(Plus(s, c, add), more)
  {
    if add {
      EncodesPlus(s, found, c);
    }
  }

  lemma NoCarry(s: bv32, m: bv32)
    requires s & m == 0
    ensures s + m == s | m
  {
  }

  /** All 16 bits are set exactly when the word is 0xffff. */
  lemma EncodesAll(s: bv32, found: set<nat>)
    requires Encodes(s, found)
    ensures s == 0xffff <==> forall b :: 0 <= b < 16 ==> b in found
  {
    if forall b :: 0 <= b < 16 ==> b in found {
      forall b | 0 <= b < 16 ensures s & Mask(b) != 0 { assert Has(s, b); }
      AllSixteen(s);
    }
    if s == 0xffff {
      forall b | 0 <= b < 16 ensures b in found {
        MaskOr(0, 0, b);
        assert Has(s, b);
      }
    }
  }

  lemma AllSixteen(s: bv32)
    requires s & 0xffff0000 == 0 && forall b :: 0 <= b < 16 ==> s & Mask(b) != 0
    ensures s == 0xffff
  {
    assert s & Mask(0) != 0 && s & Mask(1) != 0 && s & Mask(2) != 0 && s & Mask(3) != 0;
    assert s & Mask(4) != 0 && s & Mask(5) != 0 && s & Mask(6) != 0 && s & Mask(7) != 0;
    assert s & Mask(8) != 0 && s & Mask(9) != 0 && s & Mask(10) != 0 && s & Mask(11) != 0;
    assert s & Mask(12) != 0 && s & Mask(13) != 0 && s & Mask(14) != 0 && s & Mask(15) != 0;
  }

  lemma EncodesEmpty(s: bv32)
    requires Encodes(s, {})
    ensures s == 0
  {
    forall b | 0 <= b < 16 ensures s & Mask(b) == 0 { assert !Has(s, b); }
    NoneOfSixteen(s);
  }

  lemma NoneOfSixteen(s: bv32)
    requires s & 0xffff0000 == 0 && forall b :: 0 <= b < 16 ==> s & Mask(b) == 0
    ensures s == 0
  {
    assert s & Mask(0) == 0 && s & Mask(1) == 0 && s & Mask(2) == 0 && s & Mask(3) == 0;
    assert s & Mask(4) == 0 && s & Mask(5) == 0 && s & Mask(6) == 0 && s & Mask(7) == 0;
    assert s & Mask(8) == 0 && s & Mask(9) == 0 && s & Mask(10) == 0 && s & Mask(11) == 0;
    assert s & Mask(12) == 0 && s & Mask(13) == 0 && s & Mask(14) == 0 && s & Mask(15) == 0;
  }
}
