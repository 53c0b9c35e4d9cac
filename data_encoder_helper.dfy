/**
 * The MQTT wire encodings of `DataEncoderHelper`: Two and Four Byte
 * Integers, length-prefixed UTF-8 strings and binary data, and the Variable
 * Byte Integer of section 1.5.5 of the MQTT Version 5.0 standard.
 *
 * A stream being written is modelled by the bytes an encoder appends to it; a
 * stream being read by its bytes and a position.  Strings are their UTF-8
 * bytes; `null` is `None`.
 */
module DataEncoderHelper {
  import opened Bytes

  // ---------------------------------------------------------------- integers

  /** Big-endian: the most significant byte first. */
  function EncodeTwoByteInteger(value: UInt16): (bytes: seq<Byte>)
    ensures |bytes| == 2
    ensures bytes[0] as int * 0x100 + bytes[1] == value
  {
    [value / 0x100, value % 0x100]
  }

  /**
   * Reads two bytes; a byte read past the end is -1 and the sum is truncated
   * to 16 bits, as the C# cast does.
   */
  function DecodeTwoByteInteger(data: seq<Byte>, pos: nat): (r: (UInt16, nat))
    requires pos <= |data|
    ensures r.1 == if pos + 2 <= |data| then pos + 2 else |data|
  {
    var msb := ReadByte(data, pos);
    var lsb := ReadByte(data, Next(data, pos));
    ((msb * 0x100 + lsb) % 0x1_0000, Next(data, Next(data, pos)))
  }

  lemma TwoByteIntegerRoundTrip(value: UInt16, prefix: seq<Byte>, rest: seq<Byte>)
    ensures DecodeTwoByteInteger(prefix + EncodeTwoByteInteger(value) + rest, |prefix|)
         == (value, |prefix| + 2)
  {
    var data := prefix + EncodeTwoByteInteger(value) + rest;
    assert data[|prefix|] == value / 0x100 && data[|prefix| + 1] == value % 0x100;
  }

  /** Big-endian: the most significant byte first. */
  function EncodeFourByteInteger(value: UInt32): (bytes: seq<Byte>)
    ensures |bytes| == 4
    ensures ((bytes[0] as int * 0x100 + bytes[1]) * 0x100 + bytes[2]) * 0x100 + bytes[3] == value
  {
    [value / 0x100_0000, value / 0x1_0000 % 0x100, value / 0x100 % 0x100, value % 0x100]
  }

  /**
   * Reads four bytes.  Once the stream is exhausted the last read is -1,
   * which sets every bit of the combined value, so a short input decodes to
   * 0xFFFFFFFF.
   */
  function DecodeFourByteInteger(data: seq<Byte>, pos: nat): (r: (UInt32, nat))
    requires pos <= |data|
    ensures r.1 == if pos + 4 <= |data| then pos + 4 else |data|
    ensures pos + 4 > |data| ==> r.0 == UInt32MaxValue
  {
    if pos + 4 <= |data| then
      (((data[pos] as int * 0x100 + data[pos + 1]) * 0x100 + data[pos + 2]) * 0x100 + data[pos + 3], pos + 4)
    else
      (UInt32MaxValue, |data|)
  }

  lemma FourByteIntegerRoundTrip(value: UInt32, prefix: seq<Byte>, rest: seq<Byte>)
    ensures DecodeFourByteInteger(prefix + EncodeFourByteInteger(value) + rest, |prefix|)
         == (value, |prefix| + 4)
  {
    var e := EncodeFourByteInteger(value);
    var data := prefix + e + rest;
    assert data[|prefix|..|prefix| + 4] == e;
    assert data[|prefix|] == e[0] && data[|prefix| + 1] == e[1];
    assert data[|prefix| + 2] == e[2] && data[|prefix| + 3] == e[3];
  }

  // ------------------------------------------------------ strings and binary

  /** The bytes a string is written as: `null` is written as the empty string. */
  function StringBytes(value: Option<seq<Byte>>): seq<Byte>
  {
    if value.None? then [] else value.value
  }

  /** Bytes a UTF-8 string occupies on the wire, its two-byte length included. */
  function CalculateByteSize(value: Option<seq<Byte>>): nat
  {
    if value.None? || value.value == [] then 2 else 2 + |value.value|
  }

  /** A two-byte length and the bytes; more than 65535 bytes cannot be written. */
  function EncodeUTF8String(value: Option<seq<Byte>>): (r: Result<seq<Byte>>)
    ensures r.Ok? <==> |StringBytes(value)| <= UInt16MaxValue
    ensures r.Ok? ==> |r.value| == CalculateByteSize(value) && r.value[2..] == StringBytes(value)
  {
    var bytes := StringBytes(value);
    if |bytes| > UInt16MaxValue then Err("string too long")
    else Ok(EncodeTwoByteInteger(|bytes|) + bytes)
  }

  /** Fails when fewer bytes follow than the length announces. */
  function DecodeUTF8String(data: seq<Byte>, pos: nat): (r: Result<(seq<Byte>, nat)>)
    requires pos <= |data|
    ensures r.Ok? ==> r.value.1 == Next(data, Next(data, pos)) + |r.value.0| <= |data|
  {
    var (count, p) := DecodeTwoByteInteger(data, pos);
    if p + count > |data| then Err("not enough data for the string")
    else Ok((data[p..p + count], p + count))
  }

  lemma UTF8StringRoundTrip(value: Option<seq<Byte>>, prefix: seq<Byte>, rest: seq<Byte>)
    requires EncodeUTF8String(value).Ok?
    ensures DecodeUTF8String(prefix + EncodeUTF8String(value).value + rest, |prefix|)
         == Ok((StringBytes(value), |prefix| + CalculateByteSize(value)))
  {
    var bytes := StringBytes(value);
    var data := prefix + EncodeUTF8String(value).value + rest;
    assert data == prefix + EncodeTwoByteInteger(|bytes|) + (bytes + rest);
    TwoByteIntegerRoundTrip(|bytes|, prefix, bytes + rest);
    assert data[|prefix| + 2..|prefix| + 2 + |bytes|] == bytes;
  }

  /** A key string followed by a value string. */
  function EncodeUTF8StringPair(key: Option<seq<Byte>>, value: Option<seq<Byte>>): (r: Result<seq<Byte>>)
    ensures r.Ok? <==> EncodeUTF8String(key).Ok? && EncodeUTF8String(value).Ok?
    ensures r.Ok? ==> |r.value| == CalculateByteSize(key) + CalculateByteSize(value)
  {
    match EncodeUTF8String(key)
    case Err(e) => Err(e)
    case Ok(k) =>
      match EncodeUTF8String(value)
      case Err(e) => Err(e)
      case Ok(v) => Ok(k + v)
  }

  function DecodeUTF8StringPair(data: seq<Byte>, pos: nat): (r: Result<((seq<Byte>, seq<Byte>), nat)>)
    requires pos <= |data|
    ensures r.Ok? ==> pos < r.value.1 <= |data|
  {
    match DecodeUTF8String(data, pos)
    case Err(e) => Err(e)
    case Ok((key, p)) =>
      match DecodeUTF8String(data, p)
      case Err(e) => Err(e)
      case Ok((value, q)) => Ok(((key, value), q))
  }

  lemma UTF8StringPairRoundTrip(key: Option<seq<Byte>>, value: Option<seq<Byte>>, prefix: seq<Byte>, rest: seq<Byte>)
    requires EncodeUTF8StringPair(key, value).Ok?
    ensures DecodeUTF8StringPair(prefix + EncodeUTF8StringPair(key, value).value + rest, |prefix|)
         == Ok(((StringBytes(key), StringBytes(value)),
                |prefix| + CalculateByteSize(key) + CalculateByteSize(value)))
  {
    var k := EncodeUTF8String(key).value;
    var v := EncodeUTF8String(value).value;
    assert prefix + (k + v) + rest == prefix + k + (v + rest);
    UTF8StringRoundTrip(key, prefix, v + rest);
    assert prefix + (k + v) + rest == (prefix + k) + v + rest;
    UTF8StringRoundTrip(value, prefix + k, rest);
  }

  /** A two-byte length and the data; more than 65535 bytes cannot be written. */
  function EncodeBinary(binary: seq<Byte>): (r: Result<seq<Byte>>)
    ensures r.Ok? <==> |binary| <= UInt16MaxValue
    ensures r.Ok? ==> |r.value| == 2 + |binary| && r.value[2..] == binary
  {
    if |binary| > UInt16MaxValue then Err("binary too large")
    else Ok(EncodeTwoByteInteger(|binary|) + binary)
  }

  function DecodeBinary(data: seq<Byte>, pos: nat): (r: Result<(seq<Byte>, nat)>)
    requires pos <= |data|
    ensures r.Ok? ==> r.value.1 == Next(data, Next(data, pos)) + |r.value.0| <= |data|
  {
    var (length, p) := DecodeTwoByteInteger(data, pos);
    if p + length > |data| then Err("not enough data for the binary")
    else Ok((data[p..p + length], p + length))
  }

  lemma BinaryRoundTrip(binary: seq<Byte>, prefix: seq<Byte>, rest: seq<Byte>)
    requires |binary| <= UInt16MaxValue
    ensures DecodeBinary(prefix + EncodeBinary(binary).value + rest, |prefix|)
         == Ok((binary, |prefix| + 2 + |binary|))
  {
    var data := prefix + EncodeBinary(binary).value + rest;
    assert data == prefix + EncodeTwoByteInteger(|binary|) + (binary + rest);
    TwoByteIntegerRoundTrip(|binary|, prefix, binary + rest);
    assert data[|prefix| + 2..|prefix| + 2 + |binary|] == binary;
  }

  // --------------------------------------------------- Variable Byte Integer

  /**
   * Seven bits per byte, least significant group first; every byte but the
   * last has its top bit set.
   */
  function VbiEncode(value: nat): (bytes: seq<Byte>)
    ensures |bytes| >= 1
    decreases value
  {
    if value < 128 then [value] else [value % 128 + 128] + VbiEncode(value / 128)
  }

  /** Only the last byte of an encoding lacks the continuation bit. */
  lemma {:induction false} VbiEncodeContinuationBits(value: nat)
    ensures VbiEncode(value)[|VbiEncode(value)| - 1] < 128
    ensures forall i :: 0 <= i < |VbiEncode(value)| - 1 ==> VbiEncode(value)[i] >= 128
    decreases value
  {
    if value >= 128 {
      VbiEncodeContinuationBits(value / 128);
    }
  }

  /** The number of seven-bit groups `value` needs. */
  function RequiredBytes(value: nat): (n: nat)
    ensures n == |VbiEncode(value)|
    decreases value
  {
    if value < 128 then 1 else 1 + RequiredBytes(value / 128)
  }

  lemma Pow128Values()
    ensures Pow128(1) == 128 && Pow128(2) == 0x4000 && Pow128(3) == 0x20_0000
    ensures Pow128(4) == 0x1000_0000 && Pow128(5) == 0x8_0000_0000
  {
    assert Pow128(1) == 128 * Pow128(0);
    assert Pow128(2) == 128 * Pow128(1);
    assert Pow128(3) == 128 * Pow128(2);
    assert Pow128(4) == 128 * Pow128(3);
    assert Pow128(5) == 128 * Pow128(4);
  }

  lemma {:induction false} Pow128Monotone(i: nat, j: nat)
    requires i <= j
    ensures Pow128(i) <= Pow128(j)
    decreases j - i
  {
    if i < j {
      Pow128Monotone(i, j - 1);
    }
  }

  /** The decoders' guard `multiplier > 128 * 128 * 128` holds from the fifth byte on. */
  lemma MultiplierGuard(k: nat)
    ensures Pow128(k) > 128 * 128 * 128 <==> k >= 4
  {
    Pow128Values();
    if k >= 4 {
      Pow128Monotone(4, k);
    } else {
      Pow128Monotone(k, 3);
    }
  }

  /** A value needs at most `k` groups exactly when it is below 128^k. */
  lemma {:induction false} RequiredBytesBound(value: nat, k: nat)
    requires k >= 1
    ensures RequiredBytes(value) <= k <==> value < Pow128(k)
    decreases k
  {
    assert Pow128(1) == 128 * Pow128(0);
    if k == 1 {
    } else if value >= 128 {
      RequiredBytesBound(value / 128, k - 1);
      assert Pow128(k) == 128 * Pow128(k - 1);
    } else {
      Pow128Monotone(1, k);
    }
  }

  /** The encoder's loop; it writes at most five bytes for a 32-bit value. */
  method EncodeVariableByteInteger(value: UInt32) returns (bytes: seq<Byte>)
    ensures bytes == VbiEncode(value)
    ensures |bytes| <= 5
  {
    bytes := [];
    var v: nat := value;
    while true
      invariant bytes + VbiEncode(v) == VbiEncode(value)
      decreases v
    {
      var encodedByte := v % 128;
      var next := v / 128;
      if next > 0 {
        encodedByte := encodedByte + 128;
      }
      if next == 0 {
        bytes := bytes + [encodedByte];
        break;
      }
      assert VbiEncode(v) == [encodedByte] + VbiEncode(next);
      assert bytes + [encodedByte] + VbiEncode(next) == bytes + VbiEncode(v);
      bytes := bytes + [encodedByte];
      v := next;
    }
    Pow128Values();
    RequiredBytesBound(value, 5);
  }

  /** Counts the bytes the encoder's loop would write. */
  method CalculateRequiredBytesForVariableByteInteger(value: UInt32) returns (size: Byte)
    ensures size == |VbiEncode(value)|
    ensures size <= 5
  {
    Pow128Values();
    RequiredBytesBound(value, 5);
    var n: nat := 0;
    var v: nat := value;
    while true
      invariant n + RequiredBytes(v) == RequiredBytes(value)
      decreases v
    {
      var next := v / 128;
      n := n + 1;
      if next == 0 {
        break;
      }
      v := next;
    }
    size := n;
  }

  /**
   * The wire decoder's loop as a function of its state: the position, the
   * multiplier and the value so far.  Each byte adds its low seven bits
   * times the multiplier; a byte read past the end is 0xFF; reading a byte
   * while the multiplier is above 128^3 (a fifth byte) fails, whatever that
   * byte holds; a byte without the continuation bit ends the integer.
   */
  function VbiDecodeLoop(data: seq<Byte>, p: nat, multiplier: nat, value: nat): Result<(nat, nat)>
    requires p <= |data| && multiplier >= 1
    decreases 0x1000_0000 - multiplier
  {
    var encodedByte := AsByte(ReadByte(data, p));
    var value' := value + encodedByte % 128 * multiplier;
    if multiplier > 128 * 128 * 128 then Err("malformed Variable Byte Integer")
    else if encodedByte < 128 then Ok((value', Next(data, p)))
    else VbiDecodeLoop(data, Next(data, p), multiplier * 128, value')
  }

  /** The wire decoder's result from `pos`: the value and the position after it. */
  function VbiDecode(data: seq<Byte>, pos: nat): Result<(nat, nat)>
    requires pos <= |data|
  {
    VbiDecodeLoop(data, pos, 1, 0)
  }

  lemma {:induction false} MulMonotone(a: nat, b: nat, m: nat)
    requires a <= b
    ensures 0 <= a * m <= b * m
  {
    if m > 0 {
      MulMonotone(a, b, m - 1);
      assert a * m == a * (m - 1) + a && b * m == b * (m - 1) + b;
    }
  }

  lemma GroupBound(c: Byte, m: nat)
    ensures 0 <= c % 128 * m <= 127 * m
  {
    MulMonotone(c % 128, 127, m);
  }

  /**
   * Started at the `k`-th group with a value below 128^k, a successful
   * decode gives a value below 128^4 and reads a real terminating byte,
   * at most `4 - k` bytes in all.
   */
  lemma {:induction false} VbiDecodeLoopBounds(data: seq<Byte>, p: nat, k: nat, value: nat)
    requires p <= |data| && value < Pow128(k)
    requires VbiDecodeLoop(data, p, Pow128(k), value).Ok?
    ensures k < 4
    ensures VbiDecodeLoop(data, p, Pow128(k), value).value.0 < Pow128(4)
    ensures p < VbiDecodeLoop(data, p, Pow128(k), value).value.1 <= p + 4 - k
    decreases 4 - k
  {
    MultiplierGuard(k);
    var b := AsByte(ReadByte(data, p));
    assert Pow128(k + 1) == Pow128(k) * 128;
    GroupBound(b, Pow128(k));
    if b < 128 {
      Pow128Monotone(k + 1, 4);
    } else {
      VbiDecodeLoopBounds(data, Next(data, p), k + 1, value + b % 128 * Pow128(k));
    }
  }

  /** A successful wire decode gives a value below 128^4 after one to four bytes. */
  lemma VbiDecodeBounds(data: seq<Byte>, pos: nat)
    requires pos <= |data| && VbiDecode(data, pos).Ok?
    ensures VbiDecode(data, pos).value.0 < Pow128(4)
    ensures pos < VbiDecode(data, pos).value.1 <= pos + 4
  {
    VbiDecodeLoopBounds(data, pos, 0, 0);
  }

  lemma WeightSplit(value: nat, w: nat)
    ensures (value % 128) * w + (value / 128) * (w * 128) == value * w
  {
    var q, r := value / 128, value % 128;
    assert value == r + 128 * q;
    assert q * (w * 128) == (128 * q) * w;
    assert r * w + (128 * q) * w == (r + 128 * q) * w;
  }

  /** Decoding `VbiEncode(value)` from the `k`-th group adds `value` weighted by 128^k. */
  lemma {:induction false} VbiDecodeLoopEncoding(data: seq<Byte>, p: nat, k: nat, acc: nat, value: nat)
    requires p + |VbiEncode(value)| <= |data|
    requires data[p..p + |VbiEncode(value)|] == VbiEncode(value)
    requires k + |VbiEncode(value)| <= 4
    ensures VbiDecodeLoop(data, p, Pow128(k), acc).Ok?
    ensures VbiDecodeLoop(data, p, Pow128(k), acc).value.0 == acc + value * Pow128(k)
    ensures VbiDecodeLoop(data, p, Pow128(k), acc).value.1 == p + |VbiEncode(value)|
    decreases value
  {
    MultiplierGuard(k);
    var e := VbiEncode(value);
    var w := Pow128(k);
    assert data[p] == e[0];
    if value >= 128 {
      var tail := VbiEncode(value / 128);
      var acc' := acc + value % 128 * w;
      var w' := Pow128(k + 1);
      assert e == [value % 128 + 128] + tail;
      assert data[p + 1..p + 1 + |tail|] == e[1..];
      assert w' == w * 128;
      WeightSplit(value, w);
      VbiDecodeLoopEncoding(data, p + 1, k + 1, acc', value / 128);
      WireContinuedGroup(data, p, w, w', acc, acc', value);
    } else {
      WireLastGroup(data, p, w, acc, value);
    }
  }

  /** The step of `VbiDecodeLoopEncoding` for a byte with the continuation bit. */
  lemma WireContinuedGroup(data: seq<Byte>, p: nat, w: nat, w': nat, acc: nat, acc': nat, value: nat)
    requires p < |data| && 1 <= w <= 128 * 128 * 128 && w' == w * 128
    requires value >= 128 && data[p] == value % 128 + 128
    requires acc' == acc + value % 128 * w
    requires acc' + value / 128 * w' == acc + value * w
    requires VbiDecodeLoop(data, p + 1, w', acc').Ok?
    requires VbiDecodeLoop(data, p + 1, w', acc').value.0 == acc' + value / 128 * w'
    ensures VbiDecodeLoop(data, p, w, acc).Ok?
    ensures VbiDecodeLoop(data, p, w, acc).value.0 == acc + value * w
    ensures VbiDecodeLoop(data, p, w, acc).value.1 == VbiDecodeLoop(data, p + 1, w', acc').value.1
  {
    assert AsByte(ReadByte(data, p)) % 128 == value % 128;
  }

  /** The step of `VbiDecodeLoopEncoding` for the byte that ends the integer. */
  lemma WireLastGroup(data: seq<Byte>, p: nat, w: nat, acc: nat, value: nat)
    requires p < |data| && 1 <= w <= 128 * 128 * 128 && value < 128 && data[p] == value
    ensures VbiDecodeLoop(data, p, w, acc).Ok?
    ensures VbiDecodeLoop(data, p, w, acc).value.0 == acc + value * w
    ensures VbiDecodeLoop(data, p, w, acc).value.1 == p + 1
  {
    assert AsByte(ReadByte(data, p)) == value && value % 128 == value;
  }

  /** The first group has weight one. */
  lemma FirstWeight(value: nat)
    ensures 0 + value * Pow128(0) == value
  {
    assert Pow128(0) == 1;
  }

  /** Every value below 128^4 survives the wire encoding, whatever surrounds it. */
  lemma VbiRoundTrip(value: nat, prefix: seq<Byte>, rest: seq<Byte>)
    requires value < Pow128(4)
    ensures VbiDecode(prefix + VbiEncode(value) + rest, |prefix|)
         == Ok((value, |prefix| + |VbiEncode(value)|))
  {
    RequiredBytesBound(value, 4);
    var data := prefix + VbiEncode(value) + rest;
    var start, end := |prefix|, |prefix| + |VbiEncode(value)|;
    assert data[start..end] == VbiEncode(value);
    VbiDecodeLoopEncoding(data, start, 0, 0, value);
    var r := VbiDecode(data, start);
    FirstWeight(value);
    assert r == Ok((value, end));
  }

  /** The size written before a body of that many bytes is decoded, whatever follows the body. */
  lemma VbiBeforeBody(prefix: seq<Byte>, v: seq<Byte>, body: seq<Byte>, rest: seq<Byte>)
    requires |body| < Pow128(4) && v == VbiEncode(|body|)
    ensures VbiDecode(prefix + v + (body + rest), |prefix|) == Ok((|body|, |prefix| + |v|))
  {
    VbiRoundTrip(|body|, prefix, body + rest);
  }

  /** Reading only bytes with the continuation bit up to the fifth makes the wire decoder fail. */
  lemma {:induction false} VbiDecodeLoopContinuations(data: seq<Byte>, p: nat, k: nat, value: nat)
    requires k <= 4 && p <= |data|
    requires forall i :: p <= i < p + 4 - k && i < |data| ==> data[i] >= 128
    ensures VbiDecodeLoop(data, p, Pow128(k), value).Err?
    decreases 4 - k
  {
    MultiplierGuard(k);
    if k < 4 {
      assert Pow128(k + 1) == Pow128(k) * 128;
      var b := AsByte(ReadByte(data, p));
      VbiDecodeLoopContinuations(data, Next(data, p), k + 1, value + b % 128 * Pow128(k));
    }
  }

  /**
   * The wire decoder rejects what the encoder writes for values of 128^4 and
   * more: their first four bytes all carry the continuation bit.
   */
  lemma VbiDecodeRejectsLargeValues(value: nat, prefix: seq<Byte>, rest: seq<Byte>)
    requires Pow128(4) <= value
    ensures VbiDecode(prefix + VbiEncode(value) + rest, |prefix|).Err?
  {
    RequiredBytesBound(value, 4);
    VbiEncodeContinuationBits(value);
    var e := VbiEncode(value);
    var data := prefix + e + rest;
    forall i | |prefix| <= i < |prefix| + 4 && i < |data|
      ensures data[i] >= 128
    {
      assert data[i] == e[i - |prefix|];
    }
    VbiDecodeLoopContinuations(data, |prefix|, 0, 0);
  }

  /** `DecodeVariableByteInteger`: the wire decoder's loop. */
  method DecodeVariableByteInteger(data: seq<Byte>, pos: nat) returns (r: Result<(UInt32, nat)>)
    requires pos <= |data|
    ensures r.Err? <==> VbiDecode(data, pos).Err?
    ensures r.Ok? ==> r.value == VbiDecode(data, pos).value
  {
    var multiplier: nat := 1;
    var value: nat := 0;
    var p: nat := pos;
    ghost var k: nat := 0;
    while true
      invariant p <= |data| && k <= 4 && multiplier == Pow128(k) && value < multiplier
      invariant VbiDecode(data, pos) == VbiDecodeLoop(data, p, multiplier, value)
      decreases 4 - k
    {
      WireStep(data, p, k, value);
      var encodedByte := AsByte(ReadByte(data, p));
      p := Next(data, p);
      value := value + encodedByte % 128 * multiplier;
      if multiplier > 128 * 128 * 128 {
        return Err("malformed Variable Byte Integer");
      }
      multiplier := multiplier * 128;
      if encodedByte < 128 {
        break;
      }
      k := k + 1;
    }
    r := Ok((value, p));
  }

  /**
   * One turn of `DecodeVariableByteInteger`'s loop at the `k`-th group: the
   * fifth group fails, a byte without the continuation bit ends the integer
   * below 2^28, and any other byte moves on to the next group.
   */
  lemma WireStep(data: seq<Byte>, p: nat, k: nat, value: nat)
    requires p <= |data| && k <= 4 && value < Pow128(k)
    ensures Pow128(k) > 128 * 128 * 128 <==> k >= 4
    ensures Pow128(k + 1) == Pow128(k) * 128
    ensures 0 <= AsByte(ReadByte(data, p)) % 128 * Pow128(k)
    ensures value + AsByte(ReadByte(data, p)) % 128 * Pow128(k) < Pow128(k + 1)
    ensures k >= 4 ==> VbiDecodeLoop(data, p, Pow128(k), value).Err?
    ensures k < 4 && AsByte(ReadByte(data, p)) < 128 ==>
      VbiDecodeLoop(data, p, Pow128(k), value)
        == Ok((value + AsByte(ReadByte(data, p)) % 128 * Pow128(k), Next(data, p)))
      && value + AsByte(ReadByte(data, p)) % 128 * Pow128(k) < 0x1_0000_0000
    ensures k < 4 && AsByte(ReadByte(data, p)) >= 128 ==>
      VbiDecodeLoop(data, p, Pow128(k), value)
        == VbiDecodeLoop(data, Next(data, p), Pow128(k + 1), value + AsByte(ReadByte(data, p)) % 128 * Pow128(k))
  {
    MultiplierGuard(k);
    var b := AsByte(ReadByte(data, p));
    GroupBound(b, Pow128(k));
    if k < 4 && b < 128 {
      Pow128Values();
      Pow128Monotone(k + 1, 4);
    }
  }

  /** At the end of the data the wire decoder reads 0xFF bytes and fails. */
  lemma {:induction false} VbiDecodeLoopAtEnd(data: seq<Byte>, k: nat, value: nat)
    requires k <= 4
    ensures VbiDecodeLoop(data, |data|, Pow128(k), value).Err?
    decreases 4 - k
  {
    MultiplierGuard(k);
    if k < 4 {
      assert Pow128(k + 1) == Pow128(k) * 128;
      VbiDecodeLoopAtEnd(data, k + 1, value + 127 * Pow128(k));
    }
  }

  /**
   * `TryToDecodeVariableByteInteger`'s loop as a function of its state: the
   * same steps over bytes that may not have arrived yet, answering "not yet"
   * when the data runs out.
   */
  function TryDecodeLoop(data: seq<Byte>, p: nat, multiplier: nat, value: nat): Result<(bool, nat)>
    requires multiplier >= 1
    decreases |data| - p
  {
    if p >= |data| then Ok((false, 0))
    else
      var encodedByte := data[p];
      var value' := value + encodedByte % 128 * multiplier;
      if multiplier > 128 * 128 * 128 then Err("malformed Variable Byte Integer")
      else if encodedByte < 128 then Ok((true, value'))
      else TryDecodeLoop(data, p + 1, multiplier * 128, value')
  }

  /**
   * From the `k`-th group on, the peeking decoder agrees with the wire
   * decoder whenever it completes, answers "not yet" exactly when the data
   * ends within the first `4 - k` bytes while every byte has the
   * continuation bit, and fails exactly when `5 - k` bytes are there and the
   * first `4 - k` have the continuation bit.
   */
  lemma {:induction false} TryDecodeLoopAgrees(data: seq<Byte>, p: nat, k: nat, value: nat)
    requires p <= |data| && k <= 4
    ensures var t, w := TryDecodeLoop(data, p, Pow128(k), value), VbiDecodeLoop(data, p, Pow128(k), value);
            (t.Ok? && t.value.0 <==> w.Ok?) && (t.Ok? && t.value.0 ==> t.value.1 == w.value.0)
    ensures var t := TryDecodeLoop(data, p, Pow128(k), value);
            t.Ok? && !t.value.0 ==> t.value.1 == 0 && |data| - p <= 4 - k && forall i :: p <= i < |data| ==> data[i] >= 128
    ensures var t := TryDecodeLoop(data, p, Pow128(k), value);
            t.Err? ==> |data| - p > 4 - k && forall i :: p <= i < p + 4 - k ==> data[i] >= 128
    decreases 4 - k
  {
    MultiplierGuard(k);
    var w := Pow128(k);
    if p == |data| {
      VbiDecodeLoopAtEnd(data, k, value);
    } else if k == 4 {
      assert TryDecodeLoop(data, p, w, value).Err? && VbiDecodeLoop(data, p, w, value).Err?;
    } else if data[p] < 128 {
      var v := value + data[p] % 128 * w;
      assert TryDecodeLoop(data, p, w, value) == Ok((true, v));
      assert VbiDecodeLoop(data, p, w, value).Ok? && VbiDecodeLoop(data, p, w, value).value.0 == v;
    } else {
      var v := value + data[p] % 128 * w;
      assert Pow128(k + 1) == w * 128;
      TryDecodeLoopAgrees(data, p + 1, k + 1, v);
      assert TryDecodeLoop(data, p, w, value) == TryDecodeLoop(data, p + 1, w * 128, v);
      assert VbiDecodeLoop(data, p, w, value) == VbiDecodeLoop(data, p + 1, w * 128, v);
    }
  }

  /**
   * `TryToDecodeVariableByteInteger`: the wire decoder's loop over bytes that
   * may not have arrived yet.  It reports "not yet" when the data ends before
   * a byte without a continuation bit, and fails on a fifth byte as the wire
   * decoder does.
   */
  method TryToDecodeVariableByteInteger(data: seq<Byte>, pos: nat) returns (r: Result<(bool, UInt32)>)
    requires pos <= |data|
    ensures r.Ok? && r.value.0 <==> VbiDecode(data, pos).Ok?
    ensures r.Ok? && r.value.0 ==> r.value.1 == VbiDecode(data, pos).value.0
    ensures r.Ok? && !r.value.0 ==>
              r.value.1 == 0 && |data| - pos <= 4 && forall i :: pos <= i < |data| ==> data[i] >= 128
    ensures r.Err? ==> |data| - pos > 4 && forall i :: pos <= i < pos + 4 ==> data[i] >= 128
  {
    var multiplier: nat := 1;
    var value: nat := 0;
    var p: nat := pos;
    ghost var k: nat := 0;
    TryDecodeLoopAgrees(data, pos, 0, 0);
    ghost var outcome := TryDecodeLoop(data, pos, 1, 0);
    while true
      invariant p <= |data| && k <= 4 && multiplier == Pow128(k) && value < multiplier
      invariant outcome == TryDecodeLoop(data, p, multiplier, value)
      decreases |data| - p
    {
      var peeked := ReadByte(data, p);
      if peeked < 0 {
        return Ok((false, 0));
      }
      var encodedByte: Byte := peeked;
      GroupBound(encodedByte, multiplier);
      p := p + 1;
      value := value + encodedByte % 128 * multiplier;
      MultiplierGuard(k);
      if multiplier > 128 * 128 * 128 {
        return Err("malformed Variable Byte Integer");
      }
      multiplier := multiplier * 128;
      if encodedByte < 128 {
        break;
      }
      k := k + 1;
    }
    VbiDecodeBounds(data, pos);
    Pow128Values();
    r := Ok((true, value));
  }
}
