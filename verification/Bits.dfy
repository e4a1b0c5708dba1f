/** Byte-addressed bitmaps (components/keyboard/kb_bitmap.h), shared by the
    scan path, the Blast receiver and the config reassembler. */
module Bits {

  /** 1 << k. */
  function Mask(k: nat): (m: bv8)
    requires k < 8
    ensures m == 1 << k
  {
    match k
    case 0 => 1 case 1 => 2 case 2 => 4 case 3 => 8
    case 4 => 16 case 5 => 32 case 6 => 64 case _ => 128
  }

  predicate Test(b: bv8, k: nat)
    requires k < 8
  {
    b & Mask(k) != 0
  }

  predicate Get(bitmap: seq<bv8>, index: nat)
    requires index < 8 * |bitmap|
  {
    Test(bitmap[index / 8], index % 8)
  }

  function Set(bitmap: seq<bv8>, index: nat): (r: seq<bv8>)
    requires index < 8 * |bitmap|
    ensures |r| == |bitmap|
  {
    bitmap[index / 8 := bitmap[index / 8] | Mask(index % 8)]
  }

  function Clear(bitmap: seq<bv8>, index: nat): (r: seq<bv8>)
    requires index < 8 * |bitmap|
    ensures |r| == |bitmap|
  {
    bitmap[index / 8 := bitmap[index / 8] & !Mask(index % 8)]
  }

  predicate OneHot(m: bv8) {
    m != 0 && m & (m - 1) == 0
  }

  lemma OneHotXor(a: bv8, b: bv8, n: bv8)
    requires OneHot(n)
    ensures (a ^ b) & n != 0 <==> ((a & n != 0) != (b & n != 0))
  {
  }

  lemma TestXor(a: bv8, b: bv8, j: nat)
    requires j < 8
    ensures Test(a ^ b, j) == (Test(a, j) != Test(b, j))
  {
    hide Mask;
    OneHotXor(a, b, Mask(j));
  }

  function Xor(a: bv8, b: bv8): bv8 {
    a ^ b
  }

  /** A byte is its eight bits. */
  lemma ByteExtensional(a: bv8, b: bv8)
    requires forall k | 0 <= k < 8 :: Test(a, k) == Test(b, k)
    ensures a == b
  {
    assert Test(a, 0) == Test(b, 0) && Test(a, 1) == Test(b, 1) && Test(a, 2) == Test(b, 2) && Test(a, 3) == Test(b, 3);
    assert Test(a, 4) == Test(b, 4) && Test(a, 5) == Test(b, 5) && Test(a, 6) == Test(b, 6) && Test(a, 7) == Test(b, 7);
  }

  /** Setting a bit changes that bit and no other. */
  lemma GetSet(bitmap: seq<bv8>, index: nat, other: nat)
    requires index < 8 * |bitmap| && other < 8 * |bitmap|
    ensures Get(Set(bitmap, index), other) == (index == other || Get(bitmap, other))
  {
  }

  lemma GetClear(bitmap: seq<bv8>, index: nat, other: nat)
    requires index < 8 * |bitmap| && other < 8 * |bitmap|
    ensures Get(Clear(bitmap, index), other) == (index != other && Get(bitmap, other))
  {
  }

  lemma ZeroGet(bitmap: seq<bv8>, index: nat)
    requires index < 8 * |bitmap|
    requires forall i | 0 <= i < |bitmap| :: bitmap[i] == 0
    ensures !Get(bitmap, index)
  {
    hide Mask;
  }

  /** The bits of a bitmap. */
  function Unpack(bitmap: seq<bv8>): (bits: seq<bool>)
    ensures |bits| == 8 * |bitmap|
    ensures forall i | 0 <= i < 8 * |bitmap| :: bits[i] == Get(bitmap, i)
  {
    seq(8 * |bitmap|, i requires 0 <= i < 8 * |bitmap| => Get(bitmap, i))
  }

  lemma UnpackSet(bitmap: seq<bv8>, index: nat)
    requires index < 8 * |bitmap|
    ensures Unpack(Set(bitmap, index)) == Unpack(bitmap)[index := true]
  {
    hide Get, Set, Unpack;
    forall i | 0 <= i < 8 * |bitmap| ensures Get(Set(bitmap, index), i) == (i == index || Get(bitmap, i)) {
      GetSet(bitmap, index, i);
    }
  }

  lemma UnpackClear(bitmap: seq<bv8>, index: nat)
    requires index < 8 * |bitmap|
    ensures Unpack(Clear(bitmap, index)) == Unpack(bitmap)[index := false]
  {
    hide Get, Clear, Unpack;
    forall i | 0 <= i < 8 * |bitmap| ensures Get(Clear(bitmap, index), i) == (i != index && Get(bitmap, i)) {
      GetClear(bitmap, index, i);
    }
  }

  /** kb_bit_set. */
  method BitSet(bitmap: array<bv8>, index: nat)
    requires index < 8 * bitmap.Length
    modifies bitmap
    ensures Unpack(bitmap[..]) == Unpack(old(bitmap[..]))[index := true]
  {
    UnpackSet(bitmap[..], index);
    hide Unpack, Mask, Get;
    bitmap[index / 8] := bitmap[index / 8] | Mask(index % 8);
    assert bitmap[..] == Set(old(bitmap[..]), index);
  }

  /** kb_bit_clear. */
  method BitClear(bitmap: array<bv8>, index: nat)
    requires index < 8 * bitmap.Length
    modifies bitmap
    ensures Unpack(bitmap[..]) == Unpack(old(bitmap[..]))[index := false]
  {
    UnpackClear(bitmap[..], index);
    hide Unpack, Mask, Get;
    bitmap[index / 8] := bitmap[index / 8] & !Mask(index % 8);
    assert bitmap[..] == Clear(old(bitmap[..]), index);
  }

  /** kb_bit_get. */
  method BitGet(bitmap: array<bv8>, index: nat) returns (bit: bool)
    requires index < 8 * bitmap.Length
    ensures bit == Unpack(bitmap[..])[index]
  {
    hide Mask;
    bit := bitmap[index / 8] & Mask(index % 8) != 0;
  }

  // ---------- Visiting the set bits of a byte ----------

  /** __builtin_ctz of a byte that is not zero. */
  function Ctz(d: bv8): (k: nat)
    requires d != 0
    ensures k < 8
  {
    if d & 1 != 0 then 0 else if d & 2 != 0 then 1 else if d & 4 != 0 then 2 else if d & 8 != 0 then 3
    else if d & 16 != 0 then 4 else if d & 32 != 0 then 5 else if d & 64 != 0 then 6 else 7
  }

  function DropLowest(d: bv8): (e: bv8)
    ensures d != 0 ==> e < d
  {
    d & (d - 1)
  }

  /** What one step of the loop over set bits does: it finds the lowest one and clears it. */
  lemma NextBit(d: bv8) returns (e: bv8)
    requires d != 0
    ensures e == DropLowest(d)
    ensures forall j | 0 <= j < Ctz(d) :: !Test(d, j)
    ensures Test(d, Ctz(d))
    ensures forall j | 0 <= j < 8 :: Test(e, j) == (j != Ctz(d) && Test(d, j))
  {
    e := DropLowest(d);
  }
}
