/**
 * `StreamUtil`: the length-prefixed strings and the Variable Byte Integer
 * codec the record store uses when it saves its metadata.
 *
 * The decoder here differs from the wire decoder of `DataEncoderHelper`: it
 * accepts a fifth byte when that byte ends the integer, and it accumulates in
 * a 32-bit unsigned value that wraps.
 */
module StreamUtil {
  import opened Bytes
  import DataEncoderHelper

  // --------------------------------------------------- length-prefixed strings

  /**
   * A two-byte big-endian length, then the bytes; `null` is written as
   * `00 00`, and 65536 bytes or more cannot be written.
   */
  function WriteLengthPrefixedString(str: Option<seq<Byte>>): (r: Result<seq<Byte>>)
    ensures r.Ok? <==> str.None? || |str.value| < 0x1_0000
    ensures str.None? ==> r == Ok([0, 0])
    ensures r.Ok? && str.Some? ==>
              |r.value| == 2 + |str.value| && r.value[0] as int * 0x100 + r.value[1] == |str.value|
              && r.value[2..] == str.value
  {
    if str.None? then Ok([0, 0])
    else if |str.value| >= 0x1_0000 then Err("byteCount")
    else Ok(DataEncoderHelper.EncodeTwoByteInteger(|str.value|) + str.value)
  }

  /**
   * Reads the two-byte length and that many bytes; a length of zero reads as
   * `null`.  A stream that ends inside the length or the bytes fails.
   */
  function ReadLengthPrefixedString(data: seq<Byte>, pos: nat): (r: Result<(Option<seq<Byte>>, nat)>)
    requires pos <= |data|
    ensures r.Ok? ==> r.value.0 != Some([])
    ensures r.Ok? ==> pos + 2 <= r.value.1 <= |data|
    ensures r.Ok? && r.value.0.Some? ==> r.value.1 == pos + 2 + |r.value.0.value|
                                         && data[pos + 2..r.value.1] == r.value.0.value
  {
    var hi := ReadByte(data, pos);
    var lo := ReadByte(data, Next(data, pos));
    if hi < 0 || lo < 0 then Err("stream ended inside the length")
    else
      var strLength := hi * 0x100 + lo;
      if strLength == 0 then Ok((None, pos + 2))
      else if pos + 2 + strLength > |data| then Err("stream ended inside the string")
      else Ok((Some(data[pos + 2..pos + 2 + strLength]), pos + 2 + strLength))
  }

  /** What a written string reads back as: the empty string comes back as `null`. */
  function ReadBack(str: Option<seq<Byte>>): Option<seq<Byte>>
  {
    if str == Some([]) then None else str
  }

  /** Every writable string reads back, with `""` and `null` both read as `null`. */
  lemma LengthPrefixedStringRoundTrip(str: Option<seq<Byte>>, prefix: seq<Byte>, rest: seq<Byte>)
    requires WriteLengthPrefixedString(str).Ok?
    ensures var w := WriteLengthPrefixedString(str).value;
            ReadLengthPrefixedString(prefix + w + rest, |prefix|) == Ok((ReadBack(str), |prefix| + |w|))
  {
    var w := WriteLengthPrefixedString(str).value;
    var data := prefix + w + rest;
    assert data[|prefix|] == w[0] && data[|prefix| + 1] == w[1];
    if str.Some? {
      assert data[|prefix| + 2..|prefix| + |w|] == w[2..];
    }
  }

  // --------------------------------------------------- Variable Byte Integer

  /** The same loop as the wire encoder: seven bits per byte, least significant first. */
  method EncodeVariableByteInteger(value: UInt32) returns (bytes: seq<Byte>)
    ensures bytes == DataEncoderHelper.VbiEncode(value)
    ensures 1 <= |bytes| <= 5
  {
    bytes := DataEncoderHelper.EncodeVariableByteInteger(value);
  }

  /**
   * The store decoder's loop as a function of its state.  Each byte adds its
   * low seven bits times the multiplier to a 32-bit value that wraps; a byte
   * read past the end is 0xFF; a byte that still has the continuation bit
   * while the multiplier is above 128^3 (a fifth byte) fails; a byte without
   * it ends the integer, the fifth one included.
   */
  function StoreVbiDecodeLoop(data: seq<Byte>, p: nat, multiplier: nat, value: UInt32): Result<(UInt32, nat)>
    requires p <= |data| && multiplier >= 1
    decreases 0x1000_0000 - multiplier
  {
    var encodedByte := AsByte(ReadByte(data, p));
    var value' := (value + encodedByte % 128 * multiplier) % 0x1_0000_0000;
    if multiplier > 128 * 128 * 128 && encodedByte >= 128 then Err("Malformed Variable Byte Integer")
    else if encodedByte < 128 then Ok((value', Next(data, p)))
    else StoreVbiDecodeLoop(data, Next(data, p), multiplier * 128, value')
  }

  /** The store decoder's result from `pos`: the value and the position after it. */
  function StoreVbiDecode(data: seq<Byte>, pos: nat): Result<(UInt32, nat)>
    requires pos <= |data|
  {
    StoreVbiDecodeLoop(data, pos, 1, 0)
  }

  /** `DecodeVariableByteInteger`: the store decoder's loop. */
  method DecodeVariableByteInteger(data: seq<Byte>, pos: nat) returns (r: Result<(UInt32, nat)>)
    requires pos <= |data|
    ensures r.Err? <==> StoreVbiDecode(data, pos).Err?
    ensures r.Ok? ==> r.value == StoreVbiDecode(data, pos).value
  {
    var multiplier: nat := 1;
    var value: UInt32 := 0;
    var p: nat := pos;
    ghost var k: nat := 0;
    while true
      invariant p <= |data| && k <= 4 && multiplier == Pow128(k)
      invariant StoreVbiDecode(data, pos) == StoreVbiDecodeLoop(data, p, multiplier, value)
      decreases 4 - k
    {
      var encodedByte := AsByte(ReadByte(data, p));
      DataEncoderHelper.GroupBound(encodedByte, multiplier);
      p := Next(data, p);
      value := (value + encodedByte % 128 * multiplier) % 0x1_0000_0000;
      DataEncoderHelper.MultiplierGuard(k);
      if multiplier > 128 * 128 * 128 && encodedByte >= 128 {
        return Err("Malformed Variable Byte Integer");
      }
      if encodedByte < 128 {
        break;
      }
      multiplier := multiplier * 128;
      k := k + 1;
    }
    r := Ok((value, p));
  }

  /**
   * Decoding `VbiEncode(value)` from the `k`-th group adds `value` weighted
   * by 128^k, as long as the total stays within 32 bits.
   */
  lemma {:induction false} StoreVbiDecodeLoopEncoding(data: seq<Byte>, p: nat, k: nat, acc: nat, value: nat)
    requires p + |DataEncoderHelper.VbiEncode(value)| <= |data|
    requires data[p..p + |DataEncoderHelper.VbiEncode(value)|] == DataEncoderHelper.VbiEncode(value)
    requires k + |DataEncoderHelper.VbiEncode(value)| <= 5
    requires acc + value * Pow128(k) < 0x1_0000_0000
    ensures StoreVbiDecodeLoop(data, p, Pow128(k), acc).Ok?
    ensures StoreVbiDecodeLoop(data, p, Pow128(k), acc).value.0 == acc + value * Pow128(k)
    ensures StoreVbiDecodeLoop(data, p, Pow128(k), acc).value.1 == p + |DataEncoderHelper.VbiEncode(value)|
    decreases value
  {
    DataEncoderHelper.MultiplierGuard(k);
    var e := DataEncoderHelper.VbiEncode(value);
    var w := Pow128(k);
    assert data[p] == e[0];
    if value >= 128 {
      var tail := DataEncoderHelper.VbiEncode(value / 128);
      var acc' := acc + value % 128 * w;
      var w' := Pow128(k + 1);
      GroupStep(acc, value, w);
      assert e == [value % 128 + 128] + tail;
      assert data[p + 1..p + 1 + |tail|] == e[1..];
      assert w' == w * 128;
      StoreVbiDecodeLoopEncoding(data, p + 1, k + 1, acc', value / 128);
      ContinuedGroup(data, p, w, w', acc, acc', value);
    } else {
      LastGroup(data, p, w, acc, value);
    }
  }

  /** The step of `StoreVbiDecodeLoopEncoding` for a byte with the continuation bit. */
  lemma ContinuedGroup(data: seq<Byte>, p: nat, w: nat, w': nat, acc: nat, acc': nat, value: nat)
    requires p < |data| && 1 <= w <= 128 * 128 * 128 && w' == w * 128
    requires value >= 128 && data[p] == value % 128 + 128
    requires acc' == acc + value % 128 * w && acc' < 0x1_0000_0000
    requires acc' + value / 128 * w' == acc + value * w
    requires StoreVbiDecodeLoop(data, p + 1, w', acc').Ok?
    requires StoreVbiDecodeLoop(data, p + 1, w', acc').value.0 == acc' + value / 128 * w'
    ensures StoreVbiDecodeLoop(data, p, w, acc).Ok?
    ensures StoreVbiDecodeLoop(data, p, w, acc).value.0 == acc + value * w
    ensures StoreVbiDecodeLoop(data, p, w, acc).value.1 == StoreVbiDecodeLoop(data, p + 1, w', acc').value.1
  {
    assert data[p] % 128 == value % 128;
    ContinuedByte(data, p, w, w', acc, acc');
  }

  /** A byte with the continuation bit before the fifth adds its group and moves on. */
  lemma ContinuedByte(data: seq<Byte>, p: nat, w: nat, w': nat, acc: UInt32, acc': nat)
    requires p < |data| && 1 <= w <= 128 * 128 * 128 && w' == w * 128 && data[p] >= 128
    requires acc' == (acc + data[p] % 128 * w) % 0x1_0000_0000
    ensures StoreVbiDecodeLoop(data, p, w, acc) == StoreVbiDecodeLoop(data, p + 1, w', acc')
  {
  }

  /** The step of `StoreVbiDecodeLoopEncoding` for the byte that ends the integer. */
  lemma LastGroup(data: seq<Byte>, p: nat, w: nat, acc: nat, value: nat)
    requires p < |data| && 1 <= w && value < 128 && data[p] == value
    requires acc + value * w < 0x1_0000_0000
    ensures StoreVbiDecodeLoop(data, p, w, acc).Ok?
    ensures StoreVbiDecodeLoop(data, p, w, acc).value.0 == acc + value * w
    ensures StoreVbiDecodeLoop(data, p, w, acc).value.1 == p + 1
  {
    assert value % 128 == value;
    assert (acc + value * w) % 0x1_0000_0000 == acc + value * w;
  }

  /** One group of the encoding moves its weight from `value` to the accumulator without wrapping. */
  lemma GroupStep(acc: nat, value: nat, w: nat)
    requires acc + value * w < 0x1_0000_0000
    ensures acc + value % 128 * w < 0x1_0000_0000 && acc < 0x1_0000_0000
    ensures (acc + value % 128 * w) + (value / 128) * (w * 128) == acc + value * w
  {
    DataEncoderHelper.WeightSplit(value, w);
    DataEncoderHelper.MulMonotone(0, value / 128, w * 128);
  }

  /**
   * Every 32-bit value survives the store encoding, whatever surrounds it,
   * including the values of 128^4 and more whose encoding takes five bytes
   * (the wire decoder rejects those).
   */
  lemma StoreVbiRoundTrip(value: UInt32, prefix: seq<Byte>, rest: seq<Byte>)
    ensures StoreVbiDecode(prefix + DataEncoderHelper.VbiEncode(value) + rest, |prefix|)
         == Ok((value, |prefix| + |DataEncoderHelper.VbiEncode(value)|))
  {
    Pow128Values5();
    DataEncoderHelper.RequiredBytesBound(value, 5);
    var data := prefix + DataEncoderHelper.VbiEncode(value) + rest;
    var start, end := |prefix|, |prefix| + |DataEncoderHelper.VbiEncode(value)|;
    assert data[start..end] == DataEncoderHelper.VbiEncode(value);
    StoreVbiDecodeLoopEncoding(data, start, 0, 0, value);
    var r := StoreVbiDecode(data, start);
    DataEncoderHelper.FirstWeight(value);
    assert r == Ok((value, end));
  }

  lemma Pow128Values5()
    ensures Pow128(5) == 0x8_0000_0000
  {
    DataEncoderHelper.Pow128Values();
  }

  /**
   * Five bytes that all have the continuation bit (bytes past the end count
   * as 0xFF) make the store decoder fail.
   */
  lemma {:induction false} StoreVbiDecodeLoopContinuations(data: seq<Byte>, p: nat, k: nat, value: UInt32)
    requires k <= 4 && p <= |data|
    requires forall i :: p <= i < p + 5 - k && i < |data| ==> data[i] >= 128
    ensures StoreVbiDecodeLoop(data, p, Pow128(k), value).Err?
    decreases 4 - k
  {
    DataEncoderHelper.MultiplierGuard(k);
    var w := Pow128(k);
    var b := AsByte(ReadByte(data, p));
    if k < 4 {
      assert Pow128(k + 1) == w * 128;
      DataEncoderHelper.GroupBound(b, w);
      var v := (value + b % 128 * w) % 0x1_0000_0000;
      StoreVbiDecodeLoopContinuations(data, Next(data, p), k + 1, v);
      assert StoreVbiDecodeLoop(data, p, w, value) == StoreVbiDecodeLoop(data, Next(data, p), w * 128, v);
    }
  }

  /** The store decoder fails only on five bytes that all have the continuation bit. */
  lemma {:induction false} StoreVbiDecodeLoopFails(data: seq<Byte>, p: nat, k: nat, value: UInt32)
    requires k <= 4 && p <= |data|
    requires StoreVbiDecodeLoop(data, p, Pow128(k), value).Err?
    ensures forall i :: p <= i < p + 5 - k && i < |data| ==> data[i] >= 128
    decreases 4 - k
  {
    DataEncoderHelper.MultiplierGuard(k);
    var w := Pow128(k);
    var b := AsByte(ReadByte(data, p));
    if k < 4 {
      assert b >= 128;
      assert Pow128(k + 1) == w * 128;
      DataEncoderHelper.GroupBound(b, w);
      var v := (value + b % 128 * w) % 0x1_0000_0000;
      assert StoreVbiDecodeLoop(data, p, w, value) == StoreVbiDecodeLoop(data, Next(data, p), w * 128, v);
      StoreVbiDecodeLoopFails(data, Next(data, p), k + 1, v);
    }
  }

  /**
   * The store decoder fails exactly when the five bytes from `pos` all have
   * the continuation bit, a byte past the end counting as 0xFF.
   */
  lemma StoreVbiDecodeFails(data: seq<Byte>, pos: nat)
    requires pos <= |data|
    ensures StoreVbiDecode(data, pos).Err? <==> forall i :: pos <= i < pos + 5 && i < |data| ==> data[i] >= 128
  {
    if StoreVbiDecode(data, pos).Err? {
      StoreVbiDecodeLoopFails(data, pos, 0, 0);
    }
    if forall i :: pos <= i < pos + 5 && i < |data| ==> data[i] >= 128 {
      StoreVbiDecodeLoopContinuations(data, pos, 0, 0);
    }
  }

  /** A decoded integer ends on a byte of the data, after `pos`. */
  lemma StoreVbiDecodeAdvances(data: seq<Byte>, pos: nat)
    requires pos <= |data| && StoreVbiDecode(data, pos).Ok?
    ensures pos < StoreVbiDecode(data, pos).value.1 <= |data|
  {
    StoreVbiDecodeLoopAdvances(data, pos, 0, 0);
  }

  lemma {:induction false} StoreVbiDecodeLoopAdvances(data: seq<Byte>, p: nat, k: nat, value: UInt32)
    requires k <= 4 && p <= |data| && StoreVbiDecodeLoop(data, p, Pow128(k), value).Ok?
    ensures p < StoreVbiDecodeLoop(data, p, Pow128(k), value).value.1 <= |data|
    decreases 4 - k
  {
    DataEncoderHelper.MultiplierGuard(k);
    var w := Pow128(k);
    var b := AsByte(ReadByte(data, p));
    if b >= 128 {
      assert Pow128(k + 1) == w * 128;
      DataEncoderHelper.GroupBound(b, w);
      var v := (value + b % 128 * w) % 0x1_0000_0000;
      assert StoreVbiDecodeLoop(data, p, w, value) == StoreVbiDecodeLoop(data, Next(data, p), w * 128, v);
      StoreVbiDecodeLoopAdvances(data, Next(data, p), k + 1, v);
    }
  }

  /** An encoded integer found at `pos` decodes, whatever surrounds it. */
  lemma StoreVbiDecodeAt(data: seq<Byte>, pos: nat, value: UInt32)
    requires pos + |DataEncoderHelper.VbiEncode(value)| <= |data|
    requires data[pos..pos + |DataEncoderHelper.VbiEncode(value)|] == DataEncoderHelper.VbiEncode(value)
    ensures StoreVbiDecode(data, pos) == Ok((value, pos + |DataEncoderHelper.VbiEncode(value)|))
  {
    var e := DataEncoderHelper.VbiEncode(value);
    assert data == data[..pos] + e + data[pos + |e|..];
    StoreVbiRoundTrip(value, data[..pos], data[pos + |e|..]);
  }

  /** `StoreVbiDecodeAt` with the end position named by the caller. */
  lemma StoreVbiDecodeTo(data: seq<Byte>, pos: nat, value: UInt32, end: nat)
    requires end == pos + |DataEncoderHelper.VbiEncode(value)| <= |data|
    requires data[pos..end] == DataEncoderHelper.VbiEncode(value)
    ensures StoreVbiDecode(data, pos) == Ok((value, end))
  {
    StoreVbiDecodeAt(data, pos, value);
  }
}
