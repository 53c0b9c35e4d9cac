/**
 * `BitField`: the one-byte field of flags in a packet header, bit 7 being
 * the most significant.  The C# struct is updated in place by its methods, so
 * it is a class here; `Clone` makes the copy a struct assignment would.
 *
 * Bit indices are required to lie in 0..7: the field is one byte, and every
 * caller in the client passes a constant index in that range.
 */
module BitFields {

  /** `1 << i`: the byte with only bit `i` set. */
  function Mask(i: nat): (m: bv8)
    requires i < 8
    ensures m == (1 as bv8) << i
  {
    if i == 0 then 1 else if i == 1 then 2 else if i == 2 then 4 else if i == 3 then 8
    else if i == 4 then 16 else if i == 5 then 32 else if i == 6 then 64 else 128
  }

  /** Whether bit `i` of `b` is set. */
  function BitOf(b: bv8, i: nat): bool
    requires i < 8
  {
    b & Mask(i) != 0
  }

  /** The mask with exactly the bits `lsIdx..msIdx` set (none when `msIdx < lsIdx`). */
  ghost predicate IsRangeMask(mask: bv8, msIdx: nat, lsIdx: nat)
  {
    forall i: nat :: i < 8 ==> (BitOf(mask, i) <==> lsIdx <= i <= msIdx)
  }

  lemma MaskBit(j: nat, i: nat)
    requires i < 8 && j < 8
    ensures BitOf(Mask(j), i) <==> i == j
  {
  }

  lemma OrBit(a: bv8, b: bv8, i: nat)
    requires i < 8
    ensures BitOf(a | b, i) <==> BitOf(a, i) || BitOf(b, i)
  {
  }

  lemma AndBit(a: bv8, b: bv8, i: nat)
    requires i < 8
    ensures BitOf(a & b, i) <==> BitOf(a, i) && BitOf(b, i)
  {
  }

  lemma NotBit(a: bv8, i: nat)
    requires i < 8
    ensures BitOf(!a, i) <==> !BitOf(a, i)
  {
  }

  /** Bit `i` of `b >> s` is bit `s + i` of `b`, and clear past the top. */
  lemma ShiftedBit(b: bv8, s: nat, i: nat)
    requires s < 8 && i < 8
    ensures BitOf(b >> s, i) <==> s + i < 8 && BitOf(b, s + i)
  {
  }

  /** Masking with a range mask and shifting keeps exactly the range, moved down to bit 0. */
  lemma RangeBits(b: bv8, mask: bv8, msIdx: nat, lsIdx: nat, r: bv8)
    requires msIdx < 8 && lsIdx < 8 && IsRangeMask(mask, msIdx, lsIdx) && r == (b & mask) >> lsIdx
    ensures forall i: nat :: i < 8 ==> (BitOf(r, i) <==> lsIdx + i <= msIdx && BitOf(b, lsIdx + i))
  {
    forall i: nat | i < 8
      ensures BitOf(r, i) <==> lsIdx + i <= msIdx && BitOf(b, lsIdx + i)
    {
      MaskedShiftedBit(b, mask, lsIdx, i, r);
    }
  }

  lemma MaskedShiftedBit(b: bv8, mask: bv8, s: nat, i: nat, r: bv8)
    requires s < 8 && i < 8 && r == (b & mask) >> s
    ensures BitOf(r, i) <==> s + i < 8 && BitOf(b, s + i) && BitOf(mask, s + i)
  {
    ShiftedBit(b & mask, s, i);
    if s + i < 8 {
      AndBit(b, mask, s + i);
    }
  }

  /** Removing the bits a range mask selects clears exactly the range. */
  lemma ClearedBits(b: bv8, mask: bv8, msIdx: nat, lsIdx: nat)
    requires IsRangeMask(mask, msIdx, lsIdx)
    ensures forall i: nat :: i < 8 ==> (BitOf(b ^ (b & mask), i) <==> !(lsIdx <= i <= msIdx) && BitOf(b, i))
  {
    assert b ^ (b & mask) == b & !mask;
    forall i: nat | i < 8
      ensures BitOf(b & !mask, i) <==> !(lsIdx <= i <= msIdx) && BitOf(b, i)
    {
      AndBit(b, !mask, i);
      NotBit(mask, i);
    }
  }

  class BitField {
    var bits: bv8

    constructor(flags: bv8)
      ensures bits == flags
    {
      bits := flags;
    }

    function IsSet(idx: nat): bool
      reads this
      requires idx < 8
    {
      BitOf(bits, idx)
    }

    method SetToZero()
      modifies this
      ensures forall i: nat :: i < 8 ==> !IsSet(i)
    {
      bits := 0;
    }

    /** A bitwise or: a bit is set afterwards when it was set before or in `value`. */
    method CombineWith(value: bv8)
      modifies this
      ensures bits == old(bits) | value
      ensures forall i: nat :: i < 8 ==> (IsSet(i) <==> old(IsSet(i)) || BitOf(value, i))
    {
      ghost var before := bits;
      bits := bits | value;
      forall i: nat | i < 8
        ensures IsSet(i) <==> BitOf(before, i) || BitOf(value, i)
      {
        OrBit(before, value, i);
      }
    }

    /** Sets or clears bit `idx`; every other bit keeps its value. */
    method Set(idx: nat, value: bool)
      requires idx < 8
      modifies this
      ensures IsSet(idx) == value
      ensures forall i: nat :: i < 8 && i != idx ==> IsSet(i) == old(IsSet(i))
      ensures bits == if value then old(bits) | Mask(idx) else old(bits) & !Mask(idx)
    {
      ghost var before := bits;
      if value {
        bits := bits | Mask(idx);
      } else {
        bits := bits & !Mask(idx);
      }
      forall i: nat | i < 8
        ensures IsSet(i) == if i == idx then value else BitOf(before, i)
      {
        MaskBit(idx, i);
        OrBit(before, Mask(idx), i);
        AndBit(before, !Mask(idx), i);
        NotBit(Mask(idx), i);
      }
    }

    /** The bits `msIdx` down to `lsIdx`, shifted down so that `lsIdx` becomes bit 0. */
    method Range(msIdx: nat, lsIdx: nat) returns (r: bv8)
      requires msIdx < 8 && lsIdx < 8
      ensures forall i: nat :: i < 8 ==> (BitOf(r, i) <==> lsIdx + i <= msIdx && IsSet(lsIdx + i))
    {
      var mask := RangeMask(msIdx, lsIdx);
      r := (bits & mask) >> lsIdx;
      RangeBits(bits, mask, msIdx, lsIdx, r);
    }

    /** Clears the bits `msIdx` down to `lsIdx`; the other bits keep their values. */
    method ClearRange(msIdx: nat, lsIdx: nat)
      requires msIdx < 8 && lsIdx < 8
      modifies this
      ensures forall i: nat :: i < 8 ==> (IsSet(i) <==> !(lsIdx <= i <= msIdx) && old(IsSet(i)))
    {
      var mask := RangeMask(msIdx, lsIdx);
      ClearedBits(bits, mask, msIdx, lsIdx);
      bits := bits ^ (bits & mask);
    }

    /** A new field holding the same bits. */
    method Clone() returns (c: BitField)
      ensures fresh(c) && c.bits == bits
    {
      c := new BitField(bits);
    }
  }

  /** The loop that builds the mask of bits `lsIdx..msIdx` one bit at a time, from the top. */
  method RangeMask(msIdx: nat, lsIdx: nat) returns (mask: bv8)
    requires msIdx < 8 && lsIdx < 8
    ensures IsRangeMask(mask, msIdx, lsIdx)
  {
    mask := 0;
    var idx: int := msIdx;
    while idx >= lsIdx
      invariant lsIdx - 1 <= idx <= msIdx || (idx == msIdx && msIdx < lsIdx)
      invariant forall i: nat :: i < 8 ==> (BitOf(mask, i) <==> idx < i <= msIdx)
      decreases idx
    {
      ghost var before := mask;
      mask := mask | Mask(idx);
      forall i: nat | i < 8
        ensures BitOf(mask, i) <==> idx <= i <= msIdx
      {
        OrBit(before, Mask(idx), i);
        MaskBit(idx, i);
      }
      idx := idx - 1;
    }
  }
}
