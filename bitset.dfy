/**
 The byte-backed bitset that tracks slot activity. Two revisions of the same
 class exist in the repository (`HeapBitset` in the header and `DynamicBitset`
 in the implementation file); this module models one class with the
 operations of both: a byte array, a bit count that is at most eight bits per
 byte, single-bit updates and queries, whole-array fills, a first-free scan and
 full/clear tests.
 */
module Bitsets {

  /** The mask `1 << k` of bit `k` within one byte. */
  function Mask(k: nat): bv8
    requires k < 8
  {
    (1 as bv8) << (k as bv3)
  }

  /** Bit `i` of a byte sequence: bit `i % 8` of byte `i / 8`. */
  predicate BitAt(bytes: seq<bv8>, i: nat)
    requires i < 8 * |bytes|
  {
    bytes[i / 8] & Mask(i % 8) != 0
  }

  /** The abstract view of a byte sequence: one boolean per bit. */
  function Bits(bytes: seq<bv8>): (r: seq<bool>)
    ensures |r| == 8 * |bytes|
    ensures forall i :: 0 <= i < |r| ==> r[i] == BitAt(bytes, i)
  {
    seq(8 * |bytes|, i requires 0 <= i < 8 * |bytes| => BitAt(bytes, i))
  }

  /** The byte update performed by `activate_bit`. */
  function SetBit(bytes: seq<bv8>, i: nat): (r: seq<bv8>)
    requires i < 8 * |bytes|
  {
    bytes[i / 8 := bytes[i / 8] | Mask(i % 8)]
  }

  /** The byte update performed by `deactivate_bit`. */
  function ClearBit(bytes: seq<bv8>, i: nat): (r: seq<bv8>)
    requires i < 8 * |bytes|
  {
    bytes[i / 8 := bytes[i / 8] & !Mask(i % 8)]
  }

  /** Number of bytes needed for a bit count (rounded up). */
  function BitToByteCount(bitCnt: nat): nat
  {
    (bitCnt + 7) / 8
  }

  /** Lowest index of a `false` entry, or -1 when there is none. */
  function FirstInactive(bits: seq<bool>): (r: int)
    ensures -1 <= r < |bits|
    ensures r == -1 <==> forall j :: 0 <= j < |bits| ==> bits[j]
    ensures r >= 0 ==> !bits[r] && forall j :: 0 <= j < r ==> bits[j]
  {
    if |bits| == 0 then -1
    else if !bits[0] then 0
    else
      var t := FirstInactive(bits[1..]);
      if t == -1 then -1 else t + 1
  }

  /** Single-byte facts: or-ing in a mask sets exactly that bit, and-ing out a
      mask clears exactly that bit. */
  lemma MaskBit(b: bv8, k: nat, j: nat)
    requires k < 8 && j < 8
    ensures (b | Mask(k)) & Mask(j) != 0 <==> b & Mask(j) != 0 || j == k
    ensures (b & !Mask(k)) & Mask(j) != 0 <==> b & Mask(j) != 0 && j != k
  {
  }

  /** A byte is 0xFF exactly when all eight of its bits are set, and 0 exactly
      when none is. */
  lemma ByteFullOrClear(b: bv8)
    ensures b == 0xFF <==> forall k :: 0 <= k < 8 ==> b & Mask(k) != 0
    ensures b == 0 <==> forall k :: 0 <= k < 8 ==> b & Mask(k) == 0
  {
    if b != 0xFF {
      assert b & Mask(0) == 0 || b & Mask(1) == 0 || b & Mask(2) == 0 || b & Mask(3) == 0
          || b & Mask(4) == 0 || b & Mask(5) == 0 || b & Mask(6) == 0 || b & Mask(7) == 0;
    }
    if b != 0 {
      assert b & Mask(0) != 0 || b & Mask(1) != 0 || b & Mask(2) != 0 || b & Mask(3) != 0
          || b & Mask(4) != 0 || b & Mask(5) != 0 || b & Mask(6) != 0 || b & Mask(7) != 0;
    }
  }

  /** `activate_bit(i)` makes bit `i` active and leaves every other bit as it was. */
  lemma SetBitSpec(bytes: seq<bv8>, i: nat)
    requires i < 8 * |bytes|
    ensures Bits(SetBit(bytes, i)) == Bits(bytes)[i := true]
  {
    var after := SetBit(bytes, i);
    forall j | 0 <= j < 8 * |bytes|
      ensures BitAt(after, j) == (j == i || BitAt(bytes, j))
    {
      if j / 8 == i / 8 {
        MaskBit(bytes[i / 8], i % 8, j % 8);
      }
    }
  }

  /** `deactivate_bit(i)` makes bit `i` inactive and leaves every other bit as it was. */
  lemma ClearBitSpec(bytes: seq<bv8>, i: nat)
    requires i < 8 * |bytes|
    ensures Bits(ClearBit(bytes, i)) == Bits(bytes)[i := false]
  {
    var after := ClearBit(bytes, i);
    forall j | 0 <= j < 8 * |bytes|
      ensures BitAt(after, j) == (j != i && BitAt(bytes, j))
    {
      if j / 8 == i / 8 {
        MaskBit(bytes[i / 8], i % 8, j % 8);
      }
    }
  }

  /** Every byte is 0xFF exactly when every bit is active. */
  lemma AllBytesFullIff(bytes: seq<bv8>)
    ensures (forall k :: 0 <= k < |bytes| ==> bytes[k] == 0xFF)
        <==> (forall i :: 0 <= i < 8 * |bytes| ==> BitAt(bytes, i))
  {
    if forall i :: 0 <= i < 8 * |bytes| ==> BitAt(bytes, i) {
      forall k | 0 <= k < |bytes| ensures bytes[k] == 0xFF {
        ByteFullOrClear(bytes[k]);
        forall b | 0 <= b < 8 ensures bytes[k] & Mask(b) != 0 {
          assert BitAt(bytes, 8 * k + b);
        }
      }
    }
    if forall k :: 0 <= k < |bytes| ==> bytes[k] == 0xFF {
      forall i | 0 <= i < 8 * |bytes| ensures BitAt(bytes, i) {
        ByteFullOrClear(bytes[i / 8]);
      }
    }
  }

  /** Every byte is 0 exactly when no bit is active. */
  lemma AllBytesClearIff(bytes: seq<bv8>)
    ensures (forall k :: 0 <= k < |bytes| ==> bytes[k] == 0)
        <==> (forall i :: 0 <= i < 8 * |bytes| ==> !BitAt(bytes, i))
  {
    if forall i :: 0 <= i < 8 * |bytes| ==> !BitAt(bytes, i) {
      forall k | 0 <= k < |bytes| ensures bytes[k] == 0 {
        ByteFullOrClear(bytes[k]);
        forall b | 0 <= b < 8 ensures bytes[k] & Mask(b) == 0 {
          assert !BitAt(bytes, 8 * k + b);
        }
      }
    }
    if forall k :: 0 <= k < |bytes| ==> bytes[k] == 0 {
      forall i | 0 <= i < 8 * |bytes| ensures !BitAt(bytes, i) {
        ByteFullOrClear(bytes[i / 8]);
      }
    }
  }

  /** A full bitset has no inactive bit below its bit count; when the bit
      count is exactly eight bits per byte the converse holds too. */
  lemma FullIffNoInactive(bytes: seq<bv8>, bitCnt: nat)
    requires bitCnt <= 8 * |bytes|
    ensures (forall k :: 0 <= k < |bytes| ==> bytes[k] == 0xFF) ==> FirstInactive(Bits(bytes)[..bitCnt]) == -1
    ensures bitCnt == 8 * |bytes| && FirstInactive(Bits(bytes)[..bitCnt]) == -1 ==>
              forall k :: 0 <= k < |bytes| ==> bytes[k] == 0xFF
  {
    AllBytesFullIff(bytes);
    var prefix := Bits(bytes)[..bitCnt];
    if FirstInactive(prefix) == -1 && bitCnt == 8 * |bytes| {
      assert forall i :: 0 <= i < 8 * |bytes| ==> BitAt(bytes, i) by {
        forall i | 0 <= i < 8 * |bytes| ensures BitAt(bytes, i) {
          assert prefix[i];
        }
      }
    }
  }

  /** With a bit count that is not a multiple of eight the converse fails:
      three active bits out of three leave the one byte at 0x07, so the scan
      finds no free bit while `is_full` still answers false. */
  lemma PartialByteNotFull()
    ensures FirstInactive(Bits([0x07])[..3]) == -1
    ensures [0x07 as bv8][0] != 0xFF
  {
    var b := Bits([0x07]);
    assert BitAt([0x07], 0) && BitAt([0x07], 1) && BitAt([0x07], 2);
    assert b[..3] == [true, true, true];
  }

  class HeapBitset {
    var bytes: array<bv8>
    var bitCnt: int

    ghost predicate Valid()
      reads this
    {
      0 <= bitCnt <= 8 * bytes.Length
    }

    /** The abstract bit vector, eight bits per byte. */
    ghost function Active(): (r: seq<bool>)
      reads this, bytes
    {
      Bits(bytes[..])
    }

    /** `HeapBitset(byteCnt)`: value-initialised bytes, so every bit is inactive. */
    constructor (byteCnt: nat)
      ensures Valid() && fresh(bytes)
      ensures bytes.Length == byteCnt && bitCnt == 8 * byteCnt
      ensures forall k :: 0 <= k < byteCnt ==> bytes[k] == 0
      ensures forall i :: 0 <= i < 8 * byteCnt ==> !Active()[i]
    {
      bytes := new bv8[byteCnt](_ => 0);
      bitCnt := 8 * byteCnt;
      new;
      AllBytesClearIff(bytes[..]);
    }

    /** `DynamicBitset(bitCnt)`: at least one byte is required. */
    constructor FromBitCount(bitCnt: int)
      requires bitCnt > 0
      ensures Valid() && fresh(bytes)
      ensures bytes.Length == BitToByteCount(bitCnt) && this.bitCnt == bitCnt
      ensures forall i :: 0 <= i < 8 * bytes.Length ==> !Active()[i]
    {
      bytes := new bv8[BitToByteCount(bitCnt)](_ => 0);
      this.bitCnt := bitCnt;
      new;
      AllBytesClearIff(bytes[..]);
    }

    /** `is_bit_active`: bit `i % 8` of byte `i / 8`, that is, entry `i` of
        the abstract bit vector. */
    predicate IsBitActive(i: int): (r: bool)
      requires 0 <= i < 8 * bytes.Length
      reads this, bytes
      ensures r == Active()[i]
    {
      bytes[i / 8] & Mask(i % 8) != 0
    }

    method ActivateBit(i: int)
      requires 0 <= i < 8 * bytes.Length
      modifies bytes
      ensures Active() == old(Active())[i := true]
      ensures IsBitActive(i)
    {
      SetBitSpec(bytes[..], i);
      MaskBit(bytes[i / 8], i % 8, i % 8);
      bytes[i / 8] := bytes[i / 8] | Mask(i % 8);
      assert bytes[..] == SetBit(old(bytes[..]), i);
    }

    method DeactivateBit(i: int)
      requires 0 <= i < 8 * bytes.Length
      modifies bytes
      ensures Active() == old(Active())[i := false]
      ensures !IsBitActive(i)
    {
      ClearBitSpec(bytes[..], i);
      MaskBit(bytes[i / 8], i % 8, i % 8);
      bytes[i / 8] := bytes[i / 8] & !Mask(i % 8);
      assert bytes[..] == ClearBit(old(bytes[..]), i);
    }

    method Fill()
      modifies bytes
      ensures forall k :: 0 <= k < bytes.Length ==> bytes[k] == 0xFF
      ensures forall i :: 0 <= i < 8 * bytes.Length ==> Active()[i]
    {
      var k := 0;
      while k < bytes.Length
        invariant 0 <= k <= bytes.Length
        invariant forall m :: 0 <= m < k ==> bytes[m] == 0xFF
      {
        bytes[k] := 0xFF;
        k := k + 1;
      }
      AllBytesFullIff(bytes[..]);
    }

    method Clear()
      modifies bytes
      ensures forall k :: 0 <= k < bytes.Length ==> bytes[k] == 0
      ensures forall i :: 0 <= i < 8 * bytes.Length ==> !Active()[i]
    {
      var k := 0;
      while k < bytes.Length
        invariant 0 <= k <= bytes.Length
        invariant forall m :: 0 <= m < k ==> bytes[m] == 0
      {
        bytes[k] := 0;
        k := k + 1;
      }
      AllBytesClearIff(bytes[..]);
    }

    /** `resize`: the bit count always changes; the storage is replaced by
        zeroed bytes only when the byte count changes. */
    method Resize(newBitCnt: int)
      requires Valid()
      requires newBitCnt > 0
      modifies this
      ensures Valid()
      ensures bitCnt == newBitCnt && bytes.Length == BitToByteCount(newBitCnt)
      ensures old(bytes.Length) != BitToByteCount(newBitCnt) ==>
                fresh(bytes) && forall i :: 0 <= i < 8 * bytes.Length ==> !Active()[i]
      ensures old(bytes.Length) == BitToByteCount(newBitCnt) ==>
                bytes == old(bytes) && Active() == old(Active())
    {
      bitCnt := newBitCnt;
      var byteCntLast := bytes.Length;
      var byteCnt := BitToByteCount(newBitCnt);
      if byteCnt != byteCntLast {
        bytes := new bv8[byteCnt](_ => 0);
        AllBytesClearIff(bytes[..]);
      }
    }

    /** `get_first_inactive_bit_index`: the lowest inactive bit below the bit
        count, or -1 when all of them are active. */
    method FirstInactiveBitIndex() returns (r: int)
      requires Valid()
      ensures r == FirstInactive(Active()[..bitCnt])
    {
      var i := 0;
      while i < bitCnt
        invariant 0 <= i <= bitCnt
        invariant forall j :: 0 <= j < i ==> Active()[j]
      {
        if !IsBitActive(i) {
          assert Active()[..bitCnt][i] == false;
          return i;
        }
        i := i + 1;
      }
      assert forall j :: 0 <= j < bitCnt ==> Active()[..bitCnt][j];
      return -1;
    }

    /** `is_full`: true exactly when every byte is 0xFF, i.e. every bit is active. */
    method IsFull() returns (r: bool)
      ensures r <==> forall k :: 0 <= k < bytes.Length ==> bytes[k] == 0xFF
      ensures r <==> forall i :: 0 <= i < 8 * bytes.Length ==> Active()[i]
    {
      AllBytesFullIff(bytes[..]);
      var k := 0;
      while k < bytes.Length
        invariant 0 <= k <= bytes.Length
        invariant forall m :: 0 <= m < k ==> bytes[m] == 0xFF
      {
        if bytes[k] != 0xFF {
          assert !(forall m :: 0 <= m < bytes.Length ==> bytes[m] == 0xFF);
          assert !(forall i :: 0 <= i < 8 * bytes.Length ==> BitAt(bytes[..], i));
          assert Active() == Bits(bytes[..]);
          return false;
        }
        k := k + 1;
      }
      return true;
    }

    /** `is_clear`: true exactly when every byte is 0, i.e. no bit is active. */
    method IsClear() returns (r: bool)
      ensures r <==> forall k :: 0 <= k < bytes.Length ==> bytes[k] == 0
      ensures r <==> forall i :: 0 <= i < 8 * bytes.Length ==> !Active()[i]
    {
      AllBytesClearIff(bytes[..]);
      var k := 0;
      while k < bytes.Length
        invariant 0 <= k <= bytes.Length
        invariant forall m :: 0 <= m < k ==> bytes[m] == 0
      {
        if bytes[k] != 0 {
          assert !(forall m :: 0 <= m < bytes.Length ==> bytes[m] == 0);
          assert !(forall i :: 0 <= i < 8 * bytes.Length ==> !BitAt(bytes[..], i));
          assert Active() == Bits(bytes[..]);
          return false;
        }
        k := k + 1;
      }
      return true;
    }
  }
}
