/** Lists of address-data pairs, searched from the front. */
module RegList {
  import opened BitField

  datatype Entry = Entry(addr: nat, data: bv32)

  /** Index of the first entry with the address, or the length of the list. */
  function Find(list: seq<Entry>, addr: nat): (i: nat)
    ensures i <= |list|
    ensures forall k :: 0 <= k < i ==> list[k].addr != addr
    ensures i < |list| ==> list[i].addr == addr
  {
    if list == [] || list[0].addr == addr then 0 else 1 + Find(list[1..], addr)
  }

  function Updated(list: seq<Entry>, addr: nat, lsb: nat, width: nat, v: bv32): (r: seq<Entry>)
    ensures |r| == |list|
  {
    var i := Find(list, addr);
    if i < |list| then list[i := Entry(addr, SetField(list[i].data, lsb, width, v))] else list
  }

  /** A missing address does not give -1: the last entry's whole word comes back. */
  function Value(list: seq<Entry>, addr: nat, lsb: nat, width: nat): bv32 {
    var i := Find(list, addr);
    if i < |list| then GetField(list[i].data, lsb, width)
    else if list == [] then 0xffff_ffff
    else list[|list| - 1].data
  }

  lemma UpdatedAt(list: seq<Entry>, addr: nat, i: nat, lsb: nat, width: nat, v: bv32)
    requires Find(list, addr) == i < |list|
    ensures Updated(list, addr, lsb, width, v) == list[i := Entry(list[i].addr, SetField(list[i].data, lsb, width, v))]
  {
  }

  lemma ValueAt(list: seq<Entry>, addr: nat, i: nat, lsb: nat, width: nat)
    requires Find(list, addr) == i < |list|
    ensures Value(list, addr, lsb, width) == GetField(list[i].data, lsb, width)
  {
  }

  lemma MissingValue(list: seq<Entry>, addr: nat, lsb: nat, width: nat)
    requires list != [] && forall k :: 0 <= k < |list| ==> list[k].addr != addr
    ensures Value(list, addr, lsb, width) == list[|list| - 1].data
  {
  }

  /** update_reglist, in place. */
  method UpdateRegList(list: array<Entry>, addr: nat, lsb: nat, width: nat, v: bv32)
    modifies list
    ensures list[..] == Updated(old(list[..]), addr, lsb, width, v)
  {
    for i := 0 to list.Length
      invariant list[..] == old(list[..])
      invariant forall k :: 0 <= k < i ==> list[k].addr != addr
    {
      if list[i].addr == addr {
        var d := SetBitField(list[i].data, lsb, width, v);
        list[i] := Entry(list[i].addr, d);
        FindIs(old(list[..]), addr, i);
        return;
      }
    }
    FindIs(list[..], addr, list.Length);
  }

  /** get_reglist_value. */
  method GetRegListValue(list: array<Entry>, addr: nat, lsb: nat, width: nat) returns (ldata: bv32)
    ensures ldata == Value(list[..], addr, lsb, width)
  {
    ldata := 0xffff_ffff;
    for i := 0 to list.Length
      invariant forall k :: 0 <= k < i ==> list[k].addr != addr
      invariant ldata == if i == 0 then 0xffff_ffff else list[i - 1].data
    {
      ldata := list[i].data;
      if list[i].addr == addr {
        FindIs(list[..], addr, i);
        ldata := GetBitField(list[i].data, lsb, width);
        return;
      }
    }
    FindIs(list[..], addr, list.Length);
  }

  lemma FindIs(list: seq<Entry>, addr: nat, i: nat)
    requires i <= |list| && (forall k :: 0 <= k < i ==> list[k].addr != addr)
    requires i < |list| ==> list[i].addr == addr
    ensures Find(list, addr) == i
  {
  }
}
