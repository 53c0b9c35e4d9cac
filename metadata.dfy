/**
 * `Metadata`: the record the store keeps for every slot of its content file,
 * the slot's index, where its content starts and how long it is (both -1
 * once the slot is deleted), and a byte of flags.  The store rewrites a
 * slot's record, so a record is a value here.
 */
module Metadatas {
  import opened Bytes
  import DataEncoderHelper
  import opened StreamUtil

  /** `MetadataFlags.None`: set on a record that was never flagged otherwise. */
  const FlagNone: bv8 := 0x01
  /** `MetadataFlags.UserAdded`: the content was added by the user, not the engine. */
  const FlagUserAdded: bv8 := 0x02
  /** `MetadataFlags.Locked`: the content must not be deleted. */
  const FlagLocked: bv8 := 0x04

  datatype Metadata = Metadata(index: int, filePosition: Int32, length: Int32, flags: bv8)

  /** `IsDeleted`: both the position and the length are -1. */
  predicate IsDeleted(m: Metadata)
  {
    m.filePosition == -1 && m.length == -1
  }

  /** `MarkForDelete`: the record is deleted afterwards; its index and flags stay. */
  function MarkForDelete(m: Metadata): (r: Metadata)
    ensures IsDeleted(r) && r.index == m.index && r.flags == m.flags
  {
    m.(filePosition := -1, length := -1)
  }

  /** `HasFlag`: every bit of `flag` is set in the flags byte. */
  predicate HasFlag(flags: bv8, flag: bv8)
  {
    HasBits(flags, flag)
  }

  predicate HasBits(flags: bv8, flag: bv8)
  {
    flags & flag == flag
  }

  function IsUserAdded(m: Metadata): bool { HasFlag(m.flags, FlagUserAdded) }
  function IsLocked(m: Metadata): bool { HasFlag(m.flags, FlagLocked) }

  /**
   * `SetFlag` as written: the flags xor the flag, masked by the flag when
   * `on` and by nothing otherwise.  It drops every other flag, and turning
   * on a flag that is already on turns it off.
   */
  function SetFlagAsWritten(flags: bv8, flag: bv8, on: bool): bv8
  {
    (flags ^ flag) & (if on then flag else 0)
  }

  /** A locked record marked user-added loses its lock; marking it again unmarks it. */
  lemma SetFlagAsWrittenDropsFlags()
    ensures var f := SetFlagAsWritten(FlagLocked, FlagUserAdded, true);
            HasBits(f, FlagUserAdded) && !HasBits(f, FlagLocked)
    ensures !HasBits(SetFlagAsWritten(FlagUserAdded, FlagUserAdded, true), FlagUserAdded)
  {
  }

  /** `SetFlag` as intended: the flag's bits become `on`, the others keep their values. */
  function SetBits(flags: bv8, flag: bv8, on: bool): bv8
  {
    if on then flags | flag else flags & !flag
  }

  /** Setting a flag makes `HasFlag` answer `on`, and leaves every bit outside the flag alone. */
  lemma SetBitsSpec(flags: bv8, flag: bv8, on: bool)
    requires flag != 0
    ensures HasBits(SetBits(flags, flag, on), flag) == on
    ensures SetBits(flags, flag, on) & !flag == flags & !flag
  {
    if !on {
      assert SetBits(flags, flag, on) & flag == 0;
    }
  }

  /** A flag disjoint from the one set keeps its value. */
  lemma SetBitsKeepsOthers(flags: bv8, flag: bv8, on: bool, other: bv8)
    requires flag & other == 0
    ensures HasBits(SetBits(flags, flag, on), other) == HasBits(flags, other)
  {
  }

  /** `SetFlag` on the flags byte of a record. */
  function SetFlag(flags: bv8, flag: bv8, on: bool): bv8
  {
    SetBits(flags, flag, on)
  }

  lemma SetFlagSpec(flags: bv8, flag: bv8, on: bool, other: bv8)
    requires flag != 0 && flag & other == 0
    ensures HasFlag(SetFlag(flags, flag, on), flag) == on
    ensures HasFlag(SetFlag(flags, flag, on), other) == HasFlag(flags, other)
  {
    SetBitsSpec(flags, flag, on);
    SetBitsKeepsOthers(flags, flag, on, other);
  }

  /** The `IsUserAdded` setter. */
  function SetUserAdded(m: Metadata, on: bool): (r: Metadata)
    ensures IsUserAdded(r) == on && IsLocked(r) == IsLocked(m)
    ensures r.index == m.index && r.filePosition == m.filePosition && r.length == m.length
  {
    SetFlagSpec(m.flags, FlagUserAdded, on, FlagLocked);
    m.(flags := SetFlag(m.flags, FlagUserAdded, on))
  }

  /** The `IsLocked` setter. */
  function SetLocked(m: Metadata, on: bool): (r: Metadata)
    ensures IsLocked(r) == on && IsUserAdded(r) == IsUserAdded(m)
    ensures r.index == m.index && r.filePosition == m.filePosition && r.length == m.length
  {
    SetFlagSpec(m.flags, FlagLocked, on, FlagUserAdded);
    m.(flags := SetFlag(m.flags, FlagLocked, on))
  }

  // ------------------------------------------------------------- persistence

  /**
   * `SaveTo`: the position and the length as store Variable Byte Integers of
   * their 32-bit two's complement, then the flags byte.  The index is not
   * saved: it is the record's place in the metadata file.
   */
  function SaveTo(m: Metadata): seq<Byte>
  {
    DataEncoderHelper.VbiEncode(Int32ToUInt32(m.filePosition))
      + DataEncoderHelper.VbiEncode(Int32ToUInt32(m.length))
      + [m.flags as Byte]
  }

  /**
   * `LoadFrom`: the two integers and the flags byte read back into a record
   * with the given index, and the position after them; a byte past the end
   * reads as 0xFF, and a malformed integer fails.
   */
  function LoadFrom(data: seq<Byte>, pos: nat, index: int): Result<(Metadata, nat)>
    requires pos <= |data|
  {
    var position := StoreVbiDecode(data, pos);
    if position.Err? then Err(position.reason)
    else LoadLength(data, position.value.1, index, position.value.0)
  }

  /** The rest of `LoadFrom` once the position is read: the length, then the flags byte. */
  function LoadLength(data: seq<Byte>, pos: nat, index: int, position: UInt32): Result<(Metadata, nat)>
  {
    if pos > |data| then Err("position past the end of the stream")
    else
      var length := StoreVbiDecode(data, pos);
      if length.Err? then Err(length.reason)
      else
        var p := length.value.1;
        Ok((Metadata(index, UInt32ToInt32(position), UInt32ToInt32(length.value.0), AsByte(ReadByte(data, p)) as bv8), p + 1))
  }

  /** A saved record loads back as itself, whatever precedes and follows it. */
  lemma {:induction false} SaveLoadRoundTrip(m: Metadata, prefix: seq<Byte>, rest: seq<Byte>)
    ensures LoadFrom(prefix + SaveTo(m) + rest, |prefix|, m.index).Ok?
    ensures LoadFrom(prefix + SaveTo(m) + rest, |prefix|, m.index).value.0 == m
    ensures LoadFrom(prefix + SaveTo(m) + rest, |prefix|, m.index).value.1 == |prefix| + |SaveTo(m)|
  {
    var u1, u2 := Int32ToUInt32(m.filePosition), Int32ToUInt32(m.length);
    var data := prefix + SaveTo(m) + rest;
    FieldsLoadBack(data, prefix, u1, u2, m.flags as Byte, rest, m.index);
    assert (m.flags as Byte) as bv8 == m.flags;
    Int32RoundTrip(m.filePosition);
    Int32RoundTrip(m.length);
  }

  /** A saved record found at `pos` in `data` loads back as itself. */
  lemma SavedLoadsAt(m: Metadata, data: seq<Byte>, pos: nat)
    requires pos + |SaveTo(m)| <= |data|
    requires data[pos..pos + |SaveTo(m)|] == SaveTo(m)
    ensures LoadFrom(data, pos, m.index) == Ok((m, pos + |SaveTo(m)|))
  {
    var b := SaveTo(m);
    var prefix, tail := data[..pos], data[pos + |b|..];
    assert data == prefix + b + tail;
    SaveLoadRoundTrip(m, prefix, tail);
    assert |prefix| == pos;
  }

  lemma {:induction false} FieldsLoadBack(data: seq<Byte>, prefix: seq<Byte>, u1: UInt32, u2: UInt32, f: Byte, rest: seq<Byte>, index: int)
    requires data == prefix + (DataEncoderHelper.VbiEncode(u1) + DataEncoderHelper.VbiEncode(u2) + [f]) + rest
    ensures LoadFrom(data, |prefix|, index).Ok?
    ensures LoadFrom(data, |prefix|, index).value.0 == Metadata(index, UInt32ToInt32(u1), UInt32ToInt32(u2), f as bv8)
    ensures LoadFrom(data, |prefix|, index).value.1
            == |prefix| + |DataEncoderHelper.VbiEncode(u1)| + |DataEncoderHelper.VbiEncode(u2)| + 1
  {
    var e1, e2 := DataEncoderHelper.VbiEncode(u1), DataEncoderHelper.VbiEncode(u2);
    var pos := |prefix|;
    var p1 := pos + |e1|;
    var p2 := p1 + |e2|;
    Regroup(prefix, e1, e2, f, rest);
    IntegerDecodes(data, prefix, u1, e2 + [f] + rest, pos, p1);
    IntegerDecodes(data, prefix + e1, u2, [f] + rest, p1, p2);
    FieldsLoad(data, pos, index, u1, p1, u2, p2, f);
  }

  lemma {:induction false} IntegerDecodes(data: seq<Byte>, prefix: seq<Byte>, u: UInt32, tail: seq<Byte>, pos: nat, end: nat)
    requires data == prefix + DataEncoderHelper.VbiEncode(u) + tail
    requires pos == |prefix| && end == pos + |DataEncoderHelper.VbiEncode(u)|
    ensures StoreVbiDecode(data, pos) == Ok((u, end))
  {
    StoreVbiRoundTrip(u, prefix, tail);
  }

  /** `LoadFrom` assembles the record from the two integers it decodes and the byte after them. */
  lemma {:induction false} FieldsLoad(data: seq<Byte>, pos: nat, index: int, u1: UInt32, p1: nat, u2: UInt32, p2: nat, f: Byte)
    requires pos <= p1 <= p2 < |data| && data[p2] == f
    requires StoreVbiDecode(data, pos) == Ok((u1, p1)) && StoreVbiDecode(data, p1) == Ok((u2, p2))
    ensures LoadFrom(data, pos, index).Ok?
    ensures LoadFrom(data, pos, index).value.0 == Metadata(index, UInt32ToInt32(u1), UInt32ToInt32(u2), f as bv8)
    ensures LoadFrom(data, pos, index).value.1 == p2 + 1
  {
  }

  /** The same bytes grouped around each of a record's integers, and the flags byte in them. */
  lemma Regroup<T>(prefix: seq<T>, e1: seq<T>, e2: seq<T>, f: T, rest: seq<T>)
    ensures prefix + (e1 + e2 + [f]) + rest == prefix + e1 + (e2 + [f] + rest)
    ensures prefix + (e1 + e2 + [f]) + rest == prefix + e1 + e2 + ([f] + rest)
    ensures (prefix + (e1 + e2 + [f]) + rest)[|prefix| + |e1| + |e2|] == f
  {
  }

  /** A deleted record takes eleven bytes: -1 is 0xFFFF_FFFF, five bytes long. */
  lemma DeletedRecordSize(m: Metadata)
    requires IsDeleted(m)
    ensures |SaveTo(m)| == 11
  {
    DataEncoderHelper.RequiredBytesBound(0xFFFF_FFFF, 5);
    DataEncoderHelper.RequiredBytesBound(0xFFFF_FFFF, 4);
    DataEncoderHelper.Pow128Values();
  }
}
