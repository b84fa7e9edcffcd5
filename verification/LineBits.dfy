/** Groups of GPIO lines. The gpiod driver numbers the lines of a group from the most
    significant bit down (line i of n carries bit n-1-i) and unpacks and packs words bit by
    bit in that order. */
module LineBits {
  import opened Arithmetic

  /** Bit `k` of `v`: (v >> k) & 1. */
  function Bit(v: nat, k: nat): int {
    if k == 0 then v % 2 else Bit(v / 2, k - 1)
  }

  /** The line values that carry `v` on `n` lines. */
  function Lines(v: nat, n: nat): (values: seq<int>)
    ensures |values| == n
  {
    seq(n, i requires 0 <= i < n => Bit(v, n - 1 - i))
  }

  /** The word that line values put on the pins; any non-zero value drives a line high. */
  function Pins(values: seq<int>): nat {
    if values == [] then 0
    else 2 * Pins(values[..|values| - 1]) + if values[|values| - 1] != 0 then 1 else 0
  }

  lemma {:induction false} LinesFront(v: nat, n: nat)
    requires n > 0
    ensures Lines(v, n)[..n - 1] == Lines(v / 2, n - 1) && Lines(v, n)[n - 1] == v % 2
  {
    forall i | 0 <= i < n - 1 ensures Lines(v, n)[i] == Lines(v / 2, n - 1)[i] {
      assert Bit(v, n - 1 - i) == Bit(v / 2, n - 2 - i);
    }
    assert Bit(v, 0) == v % 2;
  }

  /** Unpacking a word and driving the lines puts that word on the pins. */
  lemma {:induction false} PinsOfLines(v: nat, n: nat)
    requires v < Pow2(n)
    ensures Pins(Lines(v, n)) == v
    decreases n
  {
    if n > 0 {
      LinesFront(v, n);
      PinsOfLines(v / 2, n - 1);
    }
  }

  lemma {:induction false} PinsBound(values: seq<int>)
    ensures Pins(values) < Pow2(|values|)
  {
    if values != [] {
      PinsBound(values[..|values| - 1]);
    }
  }

  /** And each line carries its own bit of the word on the pins. */
  lemma {:induction false} LinesOfPins(values: seq<int>)
    requires forall i :: 0 <= i < |values| ==> 0 <= values[i] <= 1
    ensures Lines(Pins(values), |values|) == values
  {
    var n := |values|;
    if n > 0 {
      LinesOfPins(values[..n - 1]);
      LinesFront(Pins(values), n);
      assert values == values[..n - 1] + [values[n - 1]];
      assert Lines(Pins(values), n) == Lines(Pins(values), n)[..n - 1] + [Lines(Pins(values), n)[n - 1]];
    }
  }

  lemma Pow2Sizes()
    ensures Pow2(16) == 0x1_0000 && Pow2(32) == 0x1_0000_0000
  {
    assert Pow2(8) == 0x100 && Pow2(12) == 0x1000;
    assert Pow2(20) == 0x10_0000 && Pow2(24) == 0x100_0000 && Pow2(28) == 0x1000_0000;
  }

  /** Unpacking in a loop: values[i] = (v & (top >> i)) ? 1 : 0. */
  method Unpack(v: nat, n: nat) returns (values: seq<int>)
    ensures values == Lines(v, n)
  {
    values := [];
    for i := 0 to n
      invariant values == Lines(v, n)[..i]
    {
      values := values + [Bit(v, n - 1 - i)];
    }
  }

  /** Packing in a loop: val = (val << 1) | values[i]. */
  method Pack(values: seq<int>) returns (val: nat)
    requires forall i :: 0 <= i < |values| ==> 0 <= values[i] <= 1
    ensures val == Pins(values)
  {
    val := 0;
    for i := 0 to |values|
      invariant val == Pins(values[..i])
    {
      assert values[..i + 1][..i] == values[..i];
      val := 2 * val + values[i];
    }
    assert values[..|values|] == values;
  }
}
