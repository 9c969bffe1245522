/** The bit array that marks open and closed hexes: eight flags to a byte, behaving as a set of
    hex offsets. */
module HexBits {
  import opened HexGrid

  function Mask(offset: nat): bv8 {
    (1 as bv8) << (offset % 8)
  }

  predicate BitIsSet(bytes: seq<bv8>, offset: nat)
    requires offset / 8 < |bytes|
  {
    bytes[offset / 8] & Mask(offset) != 0
  }

  /** The offsets whose bit is set. */
  ghost function Members(bytes: seq<bv8>): set<nat> {
    set offset: nat | offset < 8 * |bytes| && BitIsSet(bytes, offset)
  }

  /** Two offsets in the same byte share a mask only if they are the same offset. */
  lemma MasksAreDistinct(i: nat, j: nat)
    requires i / 8 == j / 8 && i != j
    ensures Mask(i) & Mask(j) == 0 && Mask(i) & Mask(i) != 0
  {
    MaskOfBit(i % 8);
    MaskOfBit(j % 8);
  }

  lemma MaskOfBit(b: nat)
    requires b < 8
    ensures (1 as bv8) << b == [1 as bv8, 2, 4, 8, 16, 32, 64, 128][b]
  {
  }

  lemma MaskIsSet(offset: nat)
    ensures Mask(offset) != 0
  {
    MaskOfBit(offset % 8);
  }

  lemma BitUpdate(byte: bv8, mask: bv8, other: bv8)
    ensures mask & other == 0 ==> (byte | mask) & other == byte & other
    ensures mask & other == 0 ==> (byte & !mask) & other == byte & other
    ensures mask != 0 ==> (byte | mask) & mask != 0
    ensures (byte & !mask) & mask == 0
  {
  }

  function WithBit(bytes: seq<bv8>, offset: nat, enabled: bool): (r: seq<bv8>)
    requires offset / 8 < |bytes|
  {
    var byte := bytes[offset / 8];
    bytes[offset / 8 := if enabled then byte | Mask(offset) else byte & !Mask(offset)]
  }

  lemma BitAfter(bytes: seq<bv8>, offset: nat, enabled: bool, k: nat)
    requires offset / 8 < |bytes| && k / 8 < |bytes|
    ensures BitIsSet(WithBit(bytes, offset, enabled), k) == if k == offset then enabled else BitIsSet(bytes, k)
  {
    MaskIsSet(offset);
    if k != offset && k / 8 == offset / 8 { MasksAreDistinct(offset, k); }
    hide Mask;
    BitUpdate(bytes[offset / 8], Mask(offset), Mask(k));
  }

  /** Writing one bit adds or removes exactly one offset. */
  lemma MembersAfter(bytes: seq<bv8>, offset: nat, enabled: bool)
    requires offset / 8 < |bytes|
    ensures Members(WithBit(bytes, offset, enabled))
            == if enabled then Members(bytes) + {offset} else Members(bytes) - {offset}
  {
    forall k: nat | k < 8 * |bytes|
      ensures BitIsSet(WithBit(bytes, offset, enabled), k) == if k == offset then enabled else BitIsSet(bytes, k)
    {
      BitAfter(bytes, offset, enabled, k);
    }
    hide BitIsSet;
  }

  class HexBitSet {
    const bytes: array<bv8>

    ghost predicate Valid() {
      bytes.Length == MAPX * MAPY / 8
    }

    /** The marked hexes. */
    ghost function View(): set<int>
      reads bytes
    {
      Members(bytes[..])
    }

    constructor ()
      ensures Valid() && fresh(bytes) && View() == {}
    {
      bytes := new bv8[MAPX * MAPY / 8](i => 0);
    }

    method IsSet(offset: int) returns (marked: bool)
      requires Valid() && 0 <= offset < MAPX * MAPY
      ensures marked <==> offset in View()
    {
      return bytes[offset / 8] & Mask(offset) != 0;
    }

    method Set(offset: int, enabled: bool)
      requires Valid() && 0 <= offset < MAPX * MAPY
      modifies bytes
      ensures View() == if enabled then old(View()) + {offset} else old(View()) - {offset}
    {
      hide Members, Mask;
      MembersAfter(bytes[..], offset, enabled);
      var byte := bytes[offset / 8];
      bytes[offset / 8] := if enabled then byte | Mask(offset) else byte & !Mask(offset);
      assert bytes[..] == WithBit(old(bytes[..]), offset, enabled);
    }
  }
}
