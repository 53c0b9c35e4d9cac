/**
 * `Data.ReadAs` and `Data.ReadProperties`: reading typed fields and property
 * lists back from a stream while lowering the packet's remaining length.
 *
 * A stream is its bytes and a position; a read returns the data, the
 * position after it and the new remaining length.  The remaining length is
 * a 32-bit unsigned integer and its subtractions wrap, as in C#.
 */
module DataReader {
  import opened Bytes
  import DataEncoderHelper
  import opened PacketData

  /** `a - n` on C# `UInt32`s: a difference below zero wraps around 2^32. */
  function Sub32(a: UInt32, n: UInt32): UInt32
  {
    (a - n) % 0x1_0000_0000
  }

  /** Two subtractions in a row take off their sum. */
  lemma SubSub(a: UInt32, m: UInt32, n: UInt32)
    requires m + n <= UInt32MaxValue
    ensures Sub32(Sub32(a, m), n) == Sub32(a, m + n)
  {
    var k := (a - m) / 0x1_0000_0000;
    assert Sub32(a, m) == a - m - k * 0x1_0000_0000;
  }

  /**
   * `(uint)(ReadByte() << 8 | ReadByte())`: a read past the end is -1, whose
   * bits fill the whole 32-bit result.
   */
  function ReadTwoBytes(data: seq<Byte>, pos: nat): (r: (UInt32, nat))
    requires pos <= |data|
    ensures r.1 == if pos + 2 <= |data| then pos + 2 else |data|
  {
    if pos + 2 <= |data| then (data[pos] as int * 0x100 + data[pos + 1], pos + 2)
    else (UInt32MaxValue, |data|)
  }

  /** The identifier as `(PacketProperties)ReadByte()`: -1 becomes 0xFFFF_FFFF. */
  function ReadIdentifier(data: seq<Byte>, pos: nat): UInt32
  {
    Int32ToUInt32(ReadByte(data, pos))
  }

  /** The types `ReadAs` reads in a fixed number of bytes. */
  predicate IsFixed(t: DataType)
  {
    t in {Bits, Bool, SingleByte, TwoByteInteger, FourByteInteger}
  }

  /**
   * The data type `ReadProperties` reads for each property identifier; an
   * identifier it does not know reads nothing more.
   */
  function PropertyDataType(id: UInt32): (t: Option<DataType>)
    ensures t.Some? ==> id <= SharedSubscriptionAvailable && t != Some(PropertyList)
  {
    if id == PayloadFormatIndicator || id == RequestProblemInformation || id == RequestResponseInformation
       || id == MaximumQoS || id == RetainAvailable || id == WildcardSubscriptionAvailable
       || id == SubscriptionIdentifierAvailable || id == SharedSubscriptionAvailable then Some(SingleByte)
    else if id == MessageExpiryInterval || id == SessionExpiryInterval || id == WillDelayInterval
            || id == MaximumPacketSize then Some(FourByteInteger)
    else if id == ContentType || id == ResponseTopic || id == AssignedClientIdentifier || id == AuthenticationMethod
            || id == ResponseInformation || id == ServerReference || id == ReasonString then Some(UTF8String)
    else if id == CorrelationData || id == AuthenticationData then Some(Binary)
    else if id == SubscriptionIdentifier then Some(VariableByteInteger)
    else if id == ServerKeepAlive || id == ReceiveMaximum || id == TopicAliasMaximum || id == TopicAlias then
      Some(TwoByteInteger)
    else if id == UserProperty then Some(UTF8StringPair)
    else None
  }

  /**
   * A length-prefixed string or binary: the two-byte length through
   * `ReadAs(TwoByteInteger)`, then that many bytes.  A stream ending early
   * fails.
   */
  function ReadBytes(data: seq<Byte>, pos: nat, remaining: UInt32): (r: Result<(seq<Byte>, nat, UInt32)>)
    requires pos <= |data|
    ensures r.Ok? ==> pos + 2 + |r.value.0| == r.value.1 <= |data| && |r.value.0| <= UInt16MaxValue
    ensures r.Ok? ==> r.value.2 == Sub32(remaining, 2 + |r.value.0|)
  {
    var (length, p) := ReadTwoBytes(data, pos);
    if p + length > |data| then Err("stream ended inside the string")
    else
      SubSub(remaining, 2, length);
      Ok((data[p..p + length], p + length, Sub32(Sub32(remaining, 2), length)))
  }

  /**
   * `ReadAs`: one field of the type.  A property list is its length as a
   * Variable Byte Integer, then the properties `ReadProperties` reads, each
   * through `ReadAs` again.
   */
  function ReadAs(t: DataType, data: seq<Byte>, pos: nat, remaining: UInt32): (r: Result<(Data, nat, UInt32)>)
    requires pos <= |data|
    ensures r.Ok? ==> pos <= r.value.1 <= |data|
    ensures r.Ok? && t != Raw ==> r.value.0.dtype == t
    decreases |data| - pos, 4, 0
  {
    if IsFixed(t) then Ok(ReadFixed(t, data, pos, remaining))
    else ReadVariable(t, data, pos, remaining)
  }

  /** The types of a fixed width: one byte, or a two- or four-byte integer. */
  function ReadFixed(t: DataType, data: seq<Byte>, pos: nat, remaining: UInt32): (r: (Data, nat, UInt32))
    requires pos <= |data| && IsFixed(t)
    ensures pos <= r.1 <= |data| && r.0.dtype == t
  {
    match t
    case Bits => (FromBitField(AsByte(ReadByte(data, pos)) as bv8), Next(data, pos), Sub32(remaining, 1))
    case Bool => (FromBool(ReadByte(data, pos) != 0), Next(data, pos), Sub32(remaining, 1))
    case SingleByte => (FromByte(ReadByte(data, pos)), Next(data, pos), Sub32(remaining, 1))
    case TwoByteInteger =>
      var (v, p) := ReadTwoBytes(data, pos);
      (FromTwoByteInteger(v), p, Sub32(remaining, 2))
    case FourByteInteger =>
      var (v, p) := DataEncoderHelper.DecodeFourByteInteger(data, pos);
      (FromFourByteInteger(v), p, Sub32(remaining, 4))
  }

  /** The Variable Byte Integer, the length-prefixed types, property lists, raw data, and the unset type. */
  function ReadVariable(t: DataType, data: seq<Byte>, pos: nat, remaining: UInt32): (r: Result<(Data, nat, UInt32)>)
    requires pos <= |data| && !IsFixed(t)
    ensures r.Ok? ==> pos <= r.value.1 <= |data|
    ensures r.Ok? && t != Raw ==> r.value.0.dtype == t
    decreases |data| - pos, 3, 0
  {
    match t
    case VariableByteInteger => ReadVariableByteInteger(data, pos, remaining)
    case UTF8String =>
      var s := ReadBytes(data, pos, remaining);
      if s.Err? then Err(s.reason)
      else Ok((FromString(Some(s.value.0)), s.value.1, s.value.2))
    case UTF8StringPair => ReadStringPair(data, pos, remaining)
    case Binary =>
      var b := ReadBytes(data, pos, remaining);
      if b.Err? then Err(b.reason)
      else Ok((FromArray(Some(b.value.0)), b.value.1, b.value.2))
    case PropertyList => ReadPropertyList(data, pos, remaining)
    case Raw =>
      if pos + remaining > |data| then Err("stream ended inside the raw data")
      else Ok((FromRaw(Some(data[pos..pos + remaining])), pos + remaining, 0))
    case UnSet => Err("Can't read data type UnSet")
  }

  /**
   * The integer as the wire decoder reads it; the remaining length is then
   * lowered by the size of the value's encoding, not by the bytes read.
   */
  function ReadVariableByteInteger(data: seq<Byte>, pos: nat, remaining: UInt32): (r: Result<(Data, nat, UInt32)>)
    requires pos <= |data|
    ensures r.Ok? ==> pos <= r.value.1 <= |data| && r.value.0.dtype == VariableByteInteger
  {
    var d := DataEncoderHelper.VbiDecode(data, pos);
    if d.Err? then Err(d.reason)
    else
      DataEncoderHelper.VbiDecodeBounds(data, pos);
      DataEncoderHelper.Pow128Values();
      var v: UInt32 := d.value.0;
      DataEncoderHelper.RequiredBytesBound(v, 4);
      Ok((FromVariableByteInteger(v), d.value.1, Sub32(remaining, |DataEncoderHelper.VbiEncode(v)|)))
  }

  /** A key string, then a value string. */
  function ReadStringPair(data: seq<Byte>, pos: nat, remaining: UInt32): (r: Result<(Data, nat, UInt32)>)
    requires pos <= |data|
    ensures r.Ok? ==> pos <= r.value.1 <= |data| && r.value.0.dtype == UTF8StringPair
  {
    var k := ReadBytes(data, pos, remaining);
    if k.Err? then Err(k.reason)
    else
      var v := ReadBytes(data, k.value.1, k.value.2);
      if v.Err? then Err(v.reason)
      else Ok((FromStringPair(Some(k.value.0), Some(v.value.0)), v.value.1, v.value.2))
  }

  /** The length of a property list, then the properties in it. */
  function ReadPropertyList(data: seq<Byte>, pos: nat, remaining: UInt32): (r: Result<(Data, nat, UInt32)>)
    requires pos <= |data|
    ensures r.Ok? ==> pos <= r.value.1 <= |data| && r.value.0.dtype == PropertyList
    decreases |data| - pos, 2, 0
  {
    var d := DataEncoderHelper.VbiDecode(data, pos);
    if d.Err? then Err(d.reason)
    else
      DataEncoderHelper.VbiDecodeBounds(data, pos);
      DataEncoderHelper.Pow128Values();
      var length: UInt32 := d.value.0;
      DataEncoderHelper.RequiredBytesBound(length, 4);
      var rem := Sub32(remaining, |DataEncoderHelper.VbiEncode(length)|);
      var ps := ReadPropertiesLoop(data, d.value.1, length, rem, NotCreated);
      if ps.Err? then Err(ps.reason)
      else Ok((FromProperties(ps.value.0), ps.value.1, ps.value.2))
  }

  /**
   * One turn of `ReadProperties`' loop: the identifier byte, then the value
   * of the type its identifier selects, appended to the list.
   */
  function ReadProperty(data: seq<Byte>, pos: nat, remaining: UInt32, ps: Properties): (r: Result<(Properties, nat, UInt32)>)
    requires pos <= |data|
    ensures r.Ok? ==> pos <= r.value.1 <= |data|
    ensures r.Ok? && pos < |data| ==> pos < r.value.1
    ensures pos == |data| ==> r == Ok((ps, pos, Sub32(remaining, 1)))
    decreases |data| - pos, 0, 1
  {
    ReadPropertyValue(ReadIdentifier(data, pos), data, pos, remaining, ps)
  }

  /**
   * The rest of a turn once the identifier byte at `pos` is read as `id`:
   * the value of the type `id` selects, appended as property `id`.  At the
   * end of the stream the identifier read is not a known one.
   */
  function ReadPropertyValue(id: UInt32, data: seq<Byte>, pos: nat, remaining: UInt32, ps: Properties)
    : (r: Result<(Properties, nat, UInt32)>)
    requires pos <= |data| && (pos < |data| || PropertyDataType(id).None?)
    ensures r.Ok? ==> pos <= r.value.1 <= |data|
    ensures r.Ok? && pos < |data| ==> pos < r.value.1
    ensures pos == |data| ==> r == Ok((ps, pos, Sub32(remaining, 1)))
    decreases |data| - pos, 0, 0
  {
    var p := Next(data, pos);
    var rem := Sub32(remaining, 1);
    match PropertyDataType(id)
    case None => Ok((ps, p, rem))
    case Some(t) =>
      var f := ReadAs(t, data, p, rem);
      if f.Err? then Err(f.reason)
      else Ok((AddProperty(ps, Property(id, f.value.0)), f.value.1, f.value.2))
  }

  /** A read of one byte lowers any remaining length by exactly one. */
  lemma SubOne(remaining: UInt32)
    ensures Sub32(remaining, Sub32(remaining, 1)) == 1
  {
  }

  /**
   * Every turn of the loop moves on in the stream or, once the stream is
   * exhausted, lowers `length` by the one byte it fails to read.
   */
  lemma StepProgress(data: seq<Byte>, pos: nat, length: UInt32, remaining: UInt32, ps: Properties)
    requires pos <= |data| && length > 0 && ReadProperty(data, pos, remaining, ps).Ok?
    ensures var step := ReadProperty(data, pos, remaining, ps).value;
            pos < step.1 || (pos == step.1 && Sub32(length, Sub32(remaining, step.2)) < length)
  {
    if pos == |data| {
      SubOne(remaining);
    }
  }

  /**
   * `ReadProperties`' loop as a function of its state: properties are read
   * until `length` bytes are used up, each turn lowering `length` by what
   * the turn took off the remaining length.
   */
  function ReadPropertiesLoop(data: seq<Byte>, pos: nat, length: UInt32, remaining: UInt32, ps: Properties)
    : (r: Result<(Properties, nat, UInt32)>)
    requires pos <= |data|
    ensures r.Ok? ==> pos <= r.value.1 <= |data|
    decreases |data| - pos, 1, length
  {
    if length == 0 then Ok((ps, pos, remaining))
    else
      var step := ReadProperty(data, pos, remaining, ps);
      if step.Err? then Err(step.reason)
      else
        var (ps', p, rem) := step.value;
        if pos == |data| then
          SubOne(remaining);
          ReadPropertiesLoop(data, p, Sub32(length, Sub32(remaining, rem)), rem, ps')
        else
          ReadPropertiesLoop(data, p, Sub32(length, Sub32(remaining, rem)), rem, ps')
  }

  /** `ReadProperties`: the loop over the declared property length. */
  method ReadProperties(data: seq<Byte>, pos: nat, length: UInt32, remaining: UInt32)
    returns (r: Result<(Properties, nat, UInt32)>)
    requires pos <= |data|
    ensures r == ReadPropertiesLoop(data, pos, length, remaining, NotCreated)
  {
    var properties := NotCreated;
    var p, len, rem := pos, length, remaining;
    while len > 0
      invariant p <= |data|
      invariant ReadPropertiesLoop(data, p, len, rem, properties)
             == ReadPropertiesLoop(data, pos, length, remaining, NotCreated)
      decreases |data| - p, len
    {
      var remainingBefore := rem;
      var step := ReadProperty(data, p, rem, properties);
      if step.Err? {
        return Err(step.reason);
      }
      StepProgress(data, p, len, rem, properties);
      properties, p, rem := step.value.0, step.value.1, step.value.2;
      len := Sub32(len, Sub32(remainingBefore, rem));
    }
    return Ok((properties, p, rem));
  }

  // ------------------------------------------------------------- round trips

  /**
   * The data `ReadAs` can give back: what the `From*` constructor of its type
   * makes, with an integer within the width of the type, strings and
   * binaries short enough to be written, and a property list whose
   * properties `ReadProperties` can give back.
   */
  predicate Readable(d: Data)
    decreases d, 0
  {
    match d.dtype
    case Bits => d == FromBitField(d.bits)
    case Bool => d == FromBool(d.integer != 0)
    case SingleByte => d == FromByte(d.integer)
    case TwoByteInteger => d == FromTwoByteInteger(d.integer) && d.integer <= UInt16MaxValue
    case FourByteInteger => d == FromFourByteInteger(d.integer)
    case VariableByteInteger => d == FromVariableByteInteger(d.integer) && d.integer < Pow128(4)
    case UTF8String => d.key.Some? && d == FromString(d.key) && |d.key.value| <= UInt16MaxValue
    case UTF8StringPair =>
      d.key.Some? && d.value.Some? && d == FromStringPair(d.key, d.value)
      && |d.key.value| <= UInt16MaxValue && |d.value.value| <= UInt16MaxValue
    case Binary => d == FromArray(Some(d.binary)) && |d.binary| <= UInt16MaxValue
    case PropertyList => d == FromProperties(d.properties) && ReadableList(d.properties)
    case Raw => d == FromRaw(Some(d.binary))
    case UnSet => false
  }

  /**
   * A property list `ReadAs` can give back: one never created, or a
   * non-empty one of well-formed properties whose size fits its Variable
   * Byte Integer.  An empty list is written like one never created and so
   * reads back as one never created.
   */
  predicate ReadableList(ps: Properties)
    decreases ps, 0
  {
    ps.NotCreated?
    || (|ps.items| > 0 && WellFormedFrom(ps.items, 0)
        && EncodeList(ps, 0).Ok? && |EncodeList(ps, 0).value| < Pow128(4))
  }

  /**
   * A property `ReadProperties` can give back: its data has the type its
   * identifier selects and is itself readable.
   */
  predicate WellFormedProperty(p: Property)
    decreases p, 0
  {
    PropertyDataType(p.id) == Some(p.data.dtype) && Readable(p.data)
  }

  /** Every property of `l` from the `i`-th on is well formed. */
  predicate WellFormedFrom(l: seq<Property>, i: nat)
    decreases l, |l| - i
  {
    i >= |l| || (WellFormedProperty(l[i]) && WellFormedFrom(l, i + 1))
  }

  /** Bytes behind their own two-byte big-endian length are read back, and so is the position after them. */
  lemma ReadBytesAt(data: seq<Byte>, pos: nat, bytes: seq<Byte>, remaining: UInt32)
    requires pos + 2 + |bytes| <= |data| && |bytes| <= UInt16MaxValue
    requires data[pos] as int * 0x100 + data[pos + 1] == |bytes|
    requires data[pos + 2..pos + 2 + |bytes|] == bytes
    ensures ReadBytes(data, pos, remaining) == Ok((bytes, pos + 2 + |bytes|, Sub32(remaining, 2 + |bytes|)))
  {
  }

  /** Where a string or binary is written, with its length, inside the whole stream. */
  lemma WrittenBytes(data: seq<Byte>, prefix: seq<Byte>, bytes: seq<Byte>, rest: seq<Byte>)
    requires |bytes| <= UInt16MaxValue
    requires data == prefix + (DataEncoderHelper.EncodeTwoByteInteger(|bytes|) + bytes) + rest
    ensures |prefix| + 2 + |bytes| <= |data|
    ensures data[|prefix|] as int * 0x100 + data[|prefix| + 1] == |bytes|
    ensures data[|prefix| + 2..|prefix| + 2 + |bytes|] == bytes
  {
    var e := DataEncoderHelper.EncodeTwoByteInteger(|bytes|);
    assert data[|prefix|] == e[0] && data[|prefix| + 1] == e[1];
    assert data[|prefix| + 2..|prefix| + 2 + |bytes|] == bytes;
  }

  /** A string or binary written with its length at `pos` reads back. */
  lemma WrittenBytesAt(data: seq<Byte>, pos: nat, bytes: seq<Byte>, remaining: UInt32)
    requires |bytes| <= UInt16MaxValue && pos + 2 + |bytes| <= |data|
    requires data[pos..pos + 2 + |bytes|] == DataEncoderHelper.EncodeTwoByteInteger(|bytes|) + bytes
    ensures ReadBytes(data, pos, remaining) == Ok((bytes, pos + 2 + |bytes|, Sub32(remaining, 2 + |bytes|)))
  {
    var w := data[pos..pos + 2 + |bytes|];
    assert data[pos] == w[0] && data[pos + 1] == w[1];
    assert data[pos + 2..pos + 2 + |bytes|] == w[2..];
    ReadBytesAt(data, pos, bytes, remaining);
  }

  /** Where each of two adjacent pieces lies in the whole stream. */
  lemma PieceSlices<T>(x: seq<T>, a: seq<T>, b: seq<T>, c: seq<T>, d: seq<T>)
    requires x == a + (b + c) + d
    ensures |a| + |b| + |c| <= |x|
    ensures x[|a|..|a| + |b|] == b
    ensures x[|a| + |b|..|a| + |b| + |c|] == c
  {
  }

  /**
   * Every readable field, once written, reads back as itself, and the
   * remaining length goes down by exactly the bytes written.  Raw data takes
   * all the remaining length, so it reads back when that is its own size.
   */
  lemma ReadFieldRoundTrip(d: Data, prefix: seq<Byte>, rest: seq<Byte>, remaining: UInt32)
    requires Readable(d) && d.dtype != PropertyList && (d.dtype == Raw ==> remaining == |d.binary|)
    ensures Encode(d).Ok? && |Encode(d).value| <= UInt32MaxValue
    ensures ReadAs(d.dtype, prefix + Encode(d).value + rest, |prefix|, remaining)
         == Ok((d, |prefix| + |Encode(d).value|, Sub32(remaining, |Encode(d).value|)))
  {
    match d.dtype
    case Bits => OneByteRoundTrip(d, prefix, rest, remaining);
    case Bool => OneByteRoundTrip(d, prefix, rest, remaining);
    case SingleByte => OneByteRoundTrip(d, prefix, rest, remaining);
    case TwoByteInteger => IntegerRoundTrip(d, prefix, rest, remaining);
    case FourByteInteger => IntegerRoundTrip(d, prefix, rest, remaining);
    case VariableByteInteger => IntegerRoundTrip(d, prefix, rest, remaining);
    case UTF8String => StringRoundTrip(d, prefix, rest, remaining);
    case UTF8StringPair => StringPairRoundTrip(d, prefix, rest, remaining);
    case Binary => StringRoundTrip(d, prefix, rest, remaining);
    case Raw => RawRoundTrip(d, prefix, rest, remaining);
  }

  lemma OneByteRoundTrip(d: Data, prefix: seq<Byte>, rest: seq<Byte>, remaining: UInt32)
    requires d.dtype in {Bits, Bool, SingleByte} && Readable(d)
    ensures Encode(d).Ok? && |Encode(d).value| <= UInt32MaxValue
    ensures ReadAs(d.dtype, prefix + Encode(d).value + rest, |prefix|, remaining)
         == Ok((d, |prefix| + |Encode(d).value|, Sub32(remaining, |Encode(d).value|)))
  {
    var e := Encode(d).value;
    var data := prefix + e + rest;
    assert |e| == 1 && data[|prefix|] == e[0];
    if d.dtype == Bits {
      assert (d.bits as Byte) as bv8 == d.bits;
    }
  }

  lemma IntegerRoundTrip(d: Data, prefix: seq<Byte>, rest: seq<Byte>, remaining: UInt32)
    requires d.dtype in {TwoByteInteger, FourByteInteger, VariableByteInteger} && Readable(d)
    ensures Encode(d).Ok? && |Encode(d).value| <= UInt32MaxValue
    ensures ReadAs(d.dtype, prefix + Encode(d).value + rest, |prefix|, remaining)
         == Ok((d, |prefix| + |Encode(d).value|, Sub32(remaining, |Encode(d).value|)))
  {
    if d.dtype == TwoByteInteger {
      var e := Encode(d).value;
      var data := prefix + e + rest;
      assert data[|prefix|] == e[0] && data[|prefix| + 1] == e[1];
    } else if d.dtype == FourByteInteger {
      DataEncoderHelper.FourByteIntegerRoundTrip(d.integer, prefix, rest);
    } else {
      VariableByteIntegerRoundTrip(d, prefix, rest, remaining);
    }
  }

  lemma VariableByteIntegerRoundTrip(d: Data, prefix: seq<Byte>, rest: seq<Byte>, remaining: UInt32)
    requires d.dtype == VariableByteInteger && Readable(d)
    ensures Encode(d).Ok? && |Encode(d).value| <= 4
    ensures ReadVariableByteInteger(prefix + Encode(d).value + rest, |prefix|, remaining)
         == Ok((d, |prefix| + |Encode(d).value|, Sub32(remaining, |Encode(d).value|)))
  {
    var e := Encode(d).value;
    var data := prefix + e + rest;
    var end := |prefix| + |e|;
    DataEncoderHelper.RequiredBytesBound(d.integer, 4);
    DataEncoderHelper.VbiRoundTrip(d.integer, prefix, rest);
    assert DataEncoderHelper.VbiDecode(data, |prefix|) == Ok((d.integer as nat, end));
  }

  lemma StringRoundTrip(d: Data, prefix: seq<Byte>, rest: seq<Byte>, remaining: UInt32)
    requires d.dtype in {UTF8String, Binary} && Readable(d)
    ensures Encode(d).Ok? && |Encode(d).value| <= UInt32MaxValue
    ensures ReadAs(d.dtype, prefix + Encode(d).value + rest, |prefix|, remaining)
         == Ok((d, |prefix| + |Encode(d).value|, Sub32(remaining, |Encode(d).value|)))
  {
    var bytes := if d.dtype == Binary then d.binary else d.key.value;
    var enc := Encode(d).value;
    assert enc == DataEncoderHelper.EncodeTwoByteInteger(|bytes|) + bytes;
    var data := prefix + enc + rest;
    WrittenBytes(data, prefix, bytes, rest);
    ReadBytesAt(data, |prefix|, bytes, remaining);
  }

  lemma RawRoundTrip(d: Data, prefix: seq<Byte>, rest: seq<Byte>, remaining: UInt32)
    requires d.dtype == Raw && Readable(d) && remaining == |d.binary|
    ensures Encode(d).Ok? && |Encode(d).value| <= UInt32MaxValue
    ensures ReadAs(d.dtype, prefix + Encode(d).value + rest, |prefix|, remaining)
         == Ok((d, |prefix| + |Encode(d).value|, Sub32(remaining, |Encode(d).value|)))
  {
    var data := prefix + d.binary + rest;
    assert data[|prefix|..|prefix| + remaining] == d.binary;
  }

  lemma StringPairRoundTrip(d: Data, prefix: seq<Byte>, rest: seq<Byte>, remaining: UInt32)
    requires d.dtype == UTF8StringPair && Readable(d)
    ensures Encode(d).Ok? && |Encode(d).value| <= UInt32MaxValue
    ensures ReadAs(d.dtype, prefix + Encode(d).value + rest, |prefix|, remaining)
         == Ok((d, |prefix| + |Encode(d).value|, Sub32(remaining, |Encode(d).value|)))
  {
    var k, v := d.key.value, d.value.value;
    assert Encode(d) == DataEncoderHelper.EncodeUTF8StringPair(Some(k), Some(v));
    PairEncoding(k, v);
    var enc := Encode(d).value;
    StringPairAt(d, prefix + enc + rest, prefix, enc, k, v, rest, remaining);
  }

  /** A pair is written as its two strings, each behind its length. */
  lemma PairEncoding(k: seq<Byte>, v: seq<Byte>)
    requires |k| <= UInt16MaxValue && |v| <= UInt16MaxValue
    ensures DataEncoderHelper.EncodeUTF8StringPair(Some(k), Some(v))
         == Ok((DataEncoderHelper.EncodeTwoByteInteger(|k|) + k) + (DataEncoderHelper.EncodeTwoByteInteger(|v|) + v))
  {
  }

  /** The two strings of a pair, each behind its length, read back as the pair. */
  lemma StringPairAt(d: Data, data: seq<Byte>, prefix: seq<Byte>, enc: seq<Byte>, k: seq<Byte>, v: seq<Byte>, rest: seq<Byte>, remaining: UInt32)
    requires |k| <= UInt16MaxValue && |v| <= UInt16MaxValue
    requires d == FromStringPair(Some(k), Some(v))
    requires enc == (DataEncoderHelper.EncodeTwoByteInteger(|k|) + k) + (DataEncoderHelper.EncodeTwoByteInteger(|v|) + v)
    requires data == prefix + enc + rest
    ensures ReadAs(d.dtype, data, |prefix|, remaining) == Ok((d, |prefix| + |enc|, Sub32(remaining, |enc|)))
  {
    var p1, r1 := PairBytesAt(data, prefix, enc, k, v, rest, remaining);
    ReadPairAt(data, |prefix|, k, v, remaining, p1, r1, |prefix| + |enc|, Sub32(remaining, |enc|));
  }

  /** The key and then the value of a written pair, each read as a length-prefixed string. */
  lemma PairBytesAt(data: seq<Byte>, prefix: seq<Byte>, enc: seq<Byte>, k: seq<Byte>, v: seq<Byte>, rest: seq<Byte>, remaining: UInt32)
    returns (p1: nat, r1: UInt32)
    requires |k| <= UInt16MaxValue && |v| <= UInt16MaxValue
    requires enc == (DataEncoderHelper.EncodeTwoByteInteger(|k|) + k) + (DataEncoderHelper.EncodeTwoByteInteger(|v|) + v)
    requires data == prefix + enc + rest
    ensures p1 <= |data| && |enc| <= UInt32MaxValue
    ensures ReadBytes(data, |prefix|, remaining) == Ok((k, p1, r1))
    ensures ReadBytes(data, p1, r1) == Ok((v, |prefix| + |enc|, Sub32(remaining, |enc|)))
  {
    var ek := DataEncoderHelper.EncodeTwoByteInteger(|k|) + k;
    var ev := DataEncoderHelper.EncodeTwoByteInteger(|v|) + v;
    p1, r1 := |prefix| + |ek|, Sub32(remaining, |ek|);
    PieceSlices(data, prefix, ek, ev, rest);
    WrittenBytesAt(data, |prefix|, k, remaining);
    WrittenBytesAt(data, p1, v, r1);
    SubSub(remaining, |ek|, |ev|);
  }

  lemma ReadPairAt(data: seq<Byte>, pos: nat, k: seq<Byte>, v: seq<Byte>, remaining: UInt32,
                   p1: nat, r1: UInt32, p2: nat, r2: UInt32)
    requires pos <= |data| && p1 <= |data|
    requires ReadBytes(data, pos, remaining) == Ok((k, p1, r1))
    requires ReadBytes(data, p1, r1) == Ok((v, p2, r2))
    ensures ReadAs(UTF8StringPair, data, pos, remaining) == Ok((FromStringPair(Some(k), Some(v)), p2, r2))
  {
  }

  // ------------------------------------------------------ property lists back

  /** `WellFormedFrom` says of each property what `WellFormedProperty` says. */
  lemma {:induction false} WellFormedFromAll(l: seq<Property>, i: nat)
    ensures WellFormedFrom(l, i) <==> forall j :: i <= j < |l| ==> WellFormedProperty(l[j])
    decreases |l| - i
  {
    if i < |l| {
      WellFormedFromAll(l, i + 1);
    }
  }

  /** The list read so far with `l` read after it; nothing read leaves it as it was. */
  function Appended(acc: Properties, l: seq<Property>): (r: Properties)
    ensures Items(r) == Items(acc) + l
  {
    if l == [] then acc else Created(Items(acc) + l)
  }

  /** Reading one property and then the others is reading them all. */
  lemma AppendedStep(acc: Properties, p: Property, l: seq<Property>)
    ensures Appended(AddProperty(acc, p), l) == Appended(acc, [p] + l)
  {
    assert Items(acc) + [p] + l == Items(acc) + ([p] + l);
  }

  /** An identifier below 128 is written as the one byte it is. */
  lemma SmallIdentifier(id: UInt32)
    requires id < 128
    ensures DataEncoderHelper.VbiEncode(id) == [id]
  {
  }

  /** Taking off `n` and then what was taken off gives back `n`. */
  lemma SubBack(remaining: UInt32, n: nat)
    requires n < 0x1_0000_0000
    ensures Sub32(remaining, Sub32(remaining, n)) == n
  {
    if remaining < n {
      assert Sub32(remaining, n) == remaining - n + 0x1_0000_0000;
    }
  }

  /** A stream is what precedes a slice, the slice, and what follows it. */
  lemma Around<T>(data: seq<T>, pos: nat, x: seq<T>)
    requires pos + |x| <= |data| && data[pos..pos + |x|] == x
    ensures data == data[..pos] + x + data[pos + |x|..]
  {
  }

  /** The two halves of a slice that holds two pieces. */
  lemma SliceSplit<T>(data: seq<T>, pos: nat, a: seq<T>, b: seq<T>)
    requires pos + |a| + |b| <= |data| && data[pos..pos + |a| + |b|] == a + b
    ensures data[pos..pos + |a|] == a && data[pos + |a|..pos + |a| + |b|] == b
  {
    assert data[pos..pos + |a|] == data[pos..pos + |a| + |b|][..|a|];
    assert data[pos + |a|..pos + |a| + |b|] == data[pos..pos + |a| + |b|][|a|..];
  }

  /** `ReadFieldRoundTrip` for a field found at `pos` in a stream. */
  lemma ReadFieldAt(d: Data, data: seq<Byte>, pos: nat, remaining: UInt32)
    requires Readable(d) && d.dtype !in {Raw, PropertyList} && Encode(d).Ok? && |Encode(d).value| <= UInt32MaxValue
    requires pos + |Encode(d).value| <= |data| && data[pos..pos + |Encode(d).value|] == Encode(d).value
    ensures ReadAs(d.dtype, data, pos, remaining)
         == Ok((d, pos + |Encode(d).value|, Sub32(remaining, |Encode(d).value|)))
  {
    var enc := Encode(d).value;
    var prefix, rest := data[..pos], data[pos + |enc|..];
    assert data == prefix + enc + rest && |prefix| == pos by {
      Around(data, pos, enc);
    }
    ReadFieldRoundTrip(d, prefix, rest, remaining);
  }

  /** A well-formed property is written as its identifier byte, then its data. */
  lemma PropertyEncoding(p: Property)
    requires WellFormedProperty(p)
    ensures Encode(p.data).Ok? && EncodeProperty(p) == Ok([p.id as Byte] + Encode(p.data).value)
  {
    ReadFieldRoundTrip(p.data, [], [], 0);
    SmallIdentifier(p.id);
  }

  /**
   * A well-formed property, once written at `pos`, is read by one turn of
   * `ReadProperties`' loop, which appends it to the list read so far.
   */
  lemma PropertyRoundTrip(p: Property, data: seq<Byte>, pos: nat, remaining: UInt32, acc: Properties)
    requires WellFormedProperty(p) && EncodeProperty(p).Ok? && |EncodeProperty(p).value| <= UInt32MaxValue
    requires pos + |EncodeProperty(p).value| <= |data|
    requires data[pos..pos + |EncodeProperty(p).value|] == EncodeProperty(p).value
    ensures ReadProperty(data, pos, remaining, acc)
         == Ok((AddProperty(acc, p), pos + |EncodeProperty(p).value|, Sub32(remaining, |EncodeProperty(p).value|)))
  {
    var n := PropertyBytes(p, data, pos);
    ReadFieldAt(p.data, data, pos + 1, Sub32(remaining, 1));
    PropertyAssemble(p, data, pos, remaining, acc, n);
  }

  /** A property written at `pos` is its identifier byte there, then its field of `n` bytes. */
  lemma PropertyBytes(p: Property, data: seq<Byte>, pos: nat) returns (n: nat)
    requires WellFormedProperty(p) && EncodeProperty(p).Ok? && |EncodeProperty(p).value| <= UInt32MaxValue
    requires pos + |EncodeProperty(p).value| <= |data|
    requires data[pos..pos + |EncodeProperty(p).value|] == EncodeProperty(p).value
    ensures Encode(p.data).Ok? && n == |Encode(p.data).value| && |EncodeProperty(p).value| == 1 + n
    ensures pos + 1 + n <= |data| && data[pos] == p.id && data[pos + 1..pos + 1 + n] == Encode(p.data).value
  {
    PropertyEncoding(p);
    var e := Encode(p.data).value;
    var b: Byte := p.id;
    SliceSplit(data, pos, [b], e);
    assert data[pos] == data[pos..pos + 1][0];
    n := |e|;
  }

  /** The turn's result from the identifier byte and the field of `n` bytes after it. */
  lemma PropertyAssemble(p: Property, data: seq<Byte>, pos: nat, remaining: UInt32, acc: Properties, n: UInt32)
    requires 1 + n <= UInt32MaxValue && pos + 1 + n <= |data| && data[pos] == p.id && PropertyDataType(p.id) == Some(p.data.dtype)
    requires ReadAs(p.data.dtype, data, pos + 1, Sub32(remaining, 1))
          == Ok((p.data, pos + 1 + n, Sub32(Sub32(remaining, 1), n)))
    ensures ReadProperty(data, pos, remaining, acc) == Ok((AddProperty(acc, p), pos + 1 + n, Sub32(remaining, 1 + n)))
  {
    var end, rem := pos + 1 + n, Sub32(Sub32(remaining, 1), n);
    PropertyReadAt(data, pos, remaining, acc, p, end, rem);
    SubSub(remaining, 1, n);
  }

  lemma PropertyReadAt(data: seq<Byte>, pos: nat, remaining: UInt32, acc: Properties, p: Property, end: nat, rem: UInt32)
    requires pos < |data| && data[pos] == p.id && PropertyDataType(p.id) == Some(p.data.dtype)
    requires ReadAs(p.data.dtype, data, pos + 1, Sub32(remaining, 1)) == Ok((p.data, end, rem))
    ensures ReadProperty(data, pos, remaining, acc) == Ok((AddProperty(acc, p), end, rem))
  {
    assert ReadIdentifier(data, pos) == p.id;
  }

  /** The properties from the `i`-th on can all be written when each is well formed. */
  lemma {:induction false} ListEncodes(ps: Properties, i: nat)
    requires ps.Created? && i <= |ps.items|
    requires WellFormedFrom(ps.items, i)
    ensures EncodeList(ps, i).Ok?
    decreases |ps.items| - i
  {
    if i < |ps.items| {
      PropertyEncoding(ps.items[i]);
      ListEncodes(ps, i + 1);
    }
  }

  /**
   * The properties written by `EncodeList` from the `i`-th on are read back
   * by the loop, given their byte count as the length: they are appended to
   * the list read so far, in order, and the remaining length goes down by
   * that count.
   */
  lemma ReadListRoundTrip(ps: Properties, i: nat, data: seq<Byte>, pos: nat, remaining: UInt32, acc: Properties)
    requires ps.Created? && i <= |ps.items|
    requires WellFormedFrom(ps.items, i)
    requires EncodeList(ps, i).Ok? && |EncodeList(ps, i).value| <= UInt32MaxValue
    requires pos + |EncodeList(ps, i).value| <= |data|
    requires data[pos..pos + |EncodeList(ps, i).value|] == EncodeList(ps, i).value
    ensures ReadPropertiesLoop(data, pos, |EncodeList(ps, i).value|, remaining, acc)
         == Ok((Appended(acc, ps.items[i..]), pos + |EncodeList(ps, i).value|,
                Sub32(remaining, |EncodeList(ps, i).value|)))
  {
    var starts := ListLayout(ps, i, data, pos);
    LayoutReadsAt(data, starts, ps.items[i..], remaining, acc);
    LoopReadsTurns(data, starts, ps.items[i..], remaining, acc);
  }

  /**
   * How the properties of `l` lie in the stream: each well formed and
   * written from `starts[k]` up to `starts[k + 1]`.
   */
  ghost predicate Layout(data: seq<Byte>, starts: seq<nat>, l: seq<Property>)
    decreases |l|
  {
    |starts| == |l| + 1 && starts[0] <= starts[|l|] <= |data| && starts[|l|] - starts[0] <= UInt32MaxValue
    && (l != [] ==>
          WellFormedProperty(l[0]) && EncodeProperty(l[0]).Ok?
          && starts[1] == starts[0] + |EncodeProperty(l[0]).value| && starts[0] < starts[1] <= starts[|l|]
          && data[starts[0]..starts[1]] == EncodeProperty(l[0]).value
          && Layout(data, starts[1..], l[1..]))
  }

  /**
   * The turns of `ReadProperties`' loop from `starts[0]`, begun with the
   * remaining length `remaining` and the list `acc`, read the properties of
   * `l` one by one: the turn at `starts[k]` reads `l[k]` and stops at
   * `starts[k + 1]`, further on in the stream.
   */
  ghost predicate ReadsAt(data: seq<Byte>, starts: seq<nat>, l: seq<Property>, remaining: UInt32, acc: Properties)
    decreases |l|
  {
    |starts| == |l| + 1 && starts[0] <= starts[|l|] <= |data| && starts[|l|] - starts[0] <= UInt32MaxValue
    && (l != [] ==>
          starts[0] < starts[1] <= starts[|l|]
          && ReadProperty(data, starts[0], remaining, acc)
             == Ok((AddProperty(acc, l[0]), starts[1], Sub32(remaining, starts[1] - starts[0])))
          && ReadsAt(data, starts[1..], l[1..], Sub32(remaining, starts[1] - starts[0]), AddProperty(acc, l[0])))
  }

  /** Properties laid out one after the other are read turn by turn, from any state of the loop. */
  lemma {:induction false} LayoutReadsAt(data: seq<Byte>, starts: seq<nat>, l: seq<Property>,
                                         remaining: UInt32, acc: Properties)
    requires Layout(data, starts, l)
    ensures ReadsAt(data, starts, l, remaining, acc)
    decreases |l|
  {
    if l != [] {
      LayoutFirst(data, starts, l, remaining, acc);
      LayoutReadsAt(data, starts[1..], l[1..], Sub32(remaining, starts[1] - starts[0]), AddProperty(acc, l[0]));
    }
  }

  /** Turns that read the properties of `l` in order make the loop over the bytes they take read `l`. */
  lemma {:induction false} LoopReadsTurns(data: seq<Byte>, starts: seq<nat>, l: seq<Property>,
                                          remaining: UInt32, acc: Properties)
    requires ReadsAt(data, starts, l, remaining, acc)
    ensures ReadPropertiesLoop(data, starts[0], starts[|l|] - starts[0], remaining, acc)
         == Ok((Appended(acc, l), starts[|l|], Sub32(remaining, starts[|l|] - starts[0])))
    decreases |l|
  {
    if l != [] {
      var p0, p1, end := starts[0], starts[1], starts[|l|];
      var acc', rem := AddProperty(acc, l[0]), Sub32(remaining, p1 - p0);
      assert ReadPropertiesLoop(data, p1, end - p1, rem, acc')
             == Ok((Appended(acc', l[1..]), end, Sub32(rem, end - p1))) by {
        var s := starts[1..];
        assert s[0] == p1 && s[|l| - 1] == end;
        LoopReadsTurns(data, s, l[1..], rem, acc');
      }
      LoopCompose(data, p0, p1, end, l, remaining, acc);
    } else {
      SubExact(remaining, 0);
    }
  }

  /** The first property laid out is read by the turn at its start. */
  lemma LayoutFirst(data: seq<Byte>, starts: seq<nat>, l: seq<Property>, remaining: UInt32, acc: Properties)
    requires l != [] && Layout(data, starts, l)
    ensures ReadProperty(data, starts[0], remaining, acc)
         == Ok((AddProperty(acc, l[0]), starts[1], Sub32(remaining, starts[1] - starts[0])))
  {
    PropertyRoundTrip(l[0], data, starts[0], remaining, acc);
  }

  /**
   * A turn from `p0` to `p1` that reads `l[0]`, then a loop from `p1` to
   * `end` that reads the rest of `l`, is a loop from `p0` to `end` that
   * reads `l`.
   */
  lemma LoopCompose(data: seq<Byte>, p0: nat, p1: nat, end: nat, l: seq<Property>, remaining: UInt32, acc: Properties)
    requires l != [] && p0 < p1 <= end <= |data| && end - p0 <= UInt32MaxValue
    requires ReadProperty(data, p0, remaining, acc) == Ok((AddProperty(acc, l[0]), p1, Sub32(remaining, p1 - p0)))
    requires ReadPropertiesLoop(data, p1, end - p1, Sub32(remaining, p1 - p0), AddProperty(acc, l[0]))
          == Ok((Appended(AddProperty(acc, l[0]), l[1..]), end, Sub32(Sub32(remaining, p1 - p0), end - p1)))
    ensures ReadPropertiesLoop(data, p0, end - p0, remaining, acc)
         == Ok((Appended(acc, l), end, Sub32(remaining, end - p0)))
  {
    var n, m := p1 - p0, end - p1;
    var acc' := AddProperty(acc, l[0]);
    LoopStep(data, p0, remaining, acc, acc', n, m, ReadPropertiesLoop(data, p1, m, Sub32(remaining, n), acc'));
    SubSub(remaining, n, m);
    AppendedStep(acc, l[0], l[1..]);
    assert l == [l[0]] + l[1..];
  }

  /** The properties of `ps` from the `i`-th on are written, within a `UInt32`, at `pos` in `data`. */
  ghost predicate WrittenAt(ps: Properties, i: nat, data: seq<Byte>, pos: nat)
  {
    ps.Created? && i <= |ps.items| && WellFormedFrom(ps.items, i)
    && EncodeList(ps, i).Ok? && |EncodeList(ps, i).value| <= UInt32MaxValue
    && pos + |EncodeList(ps, i).value| <= |data| && data[pos..pos + |EncodeList(ps, i).value|] == EncodeList(ps, i).value
  }

  /** The properties from the `i`-th on, written at `pos`, lie one after the other up to the end of what was written. */
  lemma {:induction false} ListLayout(ps: Properties, i: nat, data: seq<Byte>, pos: nat) returns (starts: seq<nat>)
    requires WrittenAt(ps, i, data, pos)
    ensures Layout(data, starts, ps.items[i..])
    ensures starts[0] == pos && starts[|ps.items| - i] == pos + |EncodeList(ps, i).value|
    decreases |ps.items| - i
  {
    if i == |ps.items| {
      starts := [pos];
      assert ps.items[i..] == [];
    } else {
      var n, end := ListHead(ps, i, data, pos);
      var rest := ListLayout(ps, i + 1, data, pos + n);
      LayoutCons(ps.items, i, data, pos, rest, end);
      starts := [pos] + rest;
    }
  }

  /** The layout of the properties after the `i`-th, preceded by the `i`-th written at `pos`. */
  lemma LayoutCons(items: seq<Property>, i: nat, data: seq<Byte>, pos: nat, rest: seq<nat>, end: nat)
    requires i < |items| && WellFormedProperty(items[i]) && EncodeProperty(items[i]).Ok?
    requires var n := |EncodeProperty(items[i]).value|;
             0 < n && pos + n <= |data| && data[pos..pos + n] == EncodeProperty(items[i]).value
             && Layout(data, rest, items[i + 1..]) && rest[0] == pos + n
    requires rest[|items| - (i + 1)] == end && end - pos <= UInt32MaxValue
    ensures Layout(data, [pos] + rest, items[i..])
    ensures ([pos] + rest)[|items| - i] == end
  {
    var s, t := [pos] + rest, items[i..];
    assert t[0] == items[i] && t[1..] == items[i + 1..];
    assert s[0] == pos && s[1..] == rest && s[|t|] == end;
    LayoutIntro(data, s, t);
  }

  /** The first property written in place, followed by the layout of the others, is the layout of all. */
  lemma LayoutIntro(data: seq<Byte>, s: seq<nat>, t: seq<Property>)
    requires |s| == |t| + 1 && t != [] && s[|t|] <= |data| && s[|t|] - s[0] <= UInt32MaxValue
    requires WellFormedProperty(t[0]) && EncodeProperty(t[0]).Ok?
    requires s[1] == s[0] + |EncodeProperty(t[0]).value| && s[0] < s[1] <= |data|
    requires data[s[0]..s[1]] == EncodeProperty(t[0]).value
    requires Layout(data, s[1..], t[1..])
    ensures Layout(data, s, t)
  {
  }

  /**
   * A written list that is not yet over is its first property, `n` bytes
   * written in place, followed by the rest, up to `end`.
   */
  lemma ListHead(ps: Properties, i: nat, data: seq<Byte>, pos: nat) returns (n: nat, end: nat)
    requires WrittenAt(ps, i, data, pos) && i < |ps.items|
    ensures WellFormedProperty(ps.items[i]) && EncodeProperty(ps.items[i]).Ok?
    ensures n == |EncodeProperty(ps.items[i]).value| && 0 < n && pos + n <= |data|
    ensures data[pos..pos + n] == EncodeProperty(ps.items[i]).value
    ensures WrittenAt(ps, i + 1, data, pos + n)
    ensures end == pos + |EncodeList(ps, i).value| == pos + n + |EncodeList(ps, i + 1).value|
  {
    var p := ps.items[i];
    PropertyEncoding(p);
    ListEncodes(ps, i + 1);
    var ep, el := EncodeProperty(p).value, EncodeList(ps, i + 1).value;
    assert EncodeList(ps, i).value == ep + el;
    SliceSplit(data, pos, ep, el);
    n, end := |ep|, pos + |ep| + |el|;
  }

  /** `a - n` without wrapping when `n` is at most `a`. */
  lemma SubExact(a: UInt32, n: nat)
    requires n <= a
    ensures Sub32(a, n) == a - n
  {
  }

  /** A turn of the loop that reads `n` bytes of a length `n + m` continues with the length `m`. */
  lemma LoopStep(data: seq<Byte>, pos: nat, remaining: UInt32, acc: Properties, acc': Properties,
                 n: nat, m: nat, r: Result<(Properties, nat, UInt32)>)
    requires pos + n <= |data| && 0 < n && n + m <= UInt32MaxValue
    requires ReadProperty(data, pos, remaining, acc) == Ok((acc', pos + n, Sub32(remaining, n)))
    requires ReadPropertiesLoop(data, pos + n, m, Sub32(remaining, n), acc') == r
    ensures ReadPropertiesLoop(data, pos, n + m, remaining, acc) == r
  {
    var rem := Sub32(remaining, n);
    SubBack(remaining, n);
    SubExact(n + m, n);
    LoopUnfold(data, pos, n + m, remaining, acc, acc', pos + n, rem);
  }

  /** One unfolding of the loop after a turn that succeeds. */
  lemma LoopUnfold(data: seq<Byte>, pos: nat, length: UInt32, remaining: UInt32, acc: Properties,
                   acc': Properties, p: nat, rem: UInt32)
    requires pos <= |data| && p <= |data| && length > 0
    requires ReadProperty(data, pos, remaining, acc) == Ok((acc', p, rem))
    ensures ReadPropertiesLoop(data, pos, length, remaining, acc)
         == ReadPropertiesLoop(data, p, Sub32(length, Sub32(remaining, rem)), rem, acc')
  {
  }

  // ----------------------------------------------------- whole property lists

  /**
   * Every readable field reads back as itself, property lists included: the
   * list's length, then its properties in order, and the remaining length
   * goes down by exactly the bytes written.
   */
  lemma ReadAsRoundTrip(d: Data, prefix: seq<Byte>, rest: seq<Byte>, remaining: UInt32)
    requires Readable(d) && (d.dtype == Raw ==> remaining == |d.binary|)
    ensures Encode(d).Ok? && |Encode(d).value| <= UInt32MaxValue
    ensures ReadAs(d.dtype, prefix + Encode(d).value + rest, |prefix|, remaining)
         == Ok((d, |prefix| + |Encode(d).value|, Sub32(remaining, |Encode(d).value|)))
  {
    if d.dtype == PropertyList {
      assert d == FromProperties(d.properties);
      ListFieldRoundTrip(d.properties, prefix, rest, remaining);
    } else {
      ReadFieldRoundTrip(d, prefix, rest, remaining);
    }
  }

  /** `ReadAsRoundTrip` for a property-list field. */
  lemma ListFieldRoundTrip(ps: Properties, prefix: seq<Byte>, rest: seq<Byte>, remaining: UInt32)
    requires ReadableList(ps)
    ensures Encode(FromProperties(ps)).Ok? && |Encode(FromProperties(ps)).value| <= UInt32MaxValue
    ensures var e := Encode(FromProperties(ps)).value;
            ReadAs(PropertyList, prefix + e + rest, |prefix|, remaining)
            == Ok((FromProperties(ps), |prefix| + |e|, Sub32(remaining, |e|)))
  {
    ListReadBack(ps, prefix, rest, remaining);
    ListField(ps, prefix + EncodeProperties(ps).value + rest, |prefix|, remaining);
  }

  /** A property-list field is written as its list and read by `ReadPropertyList`. */
  lemma ListField(ps: Properties, data: seq<Byte>, pos: nat, remaining: UInt32)
    requires pos <= |data|
    ensures Encode(FromProperties(ps)) == EncodeProperties(ps)
    ensures ReadAs(PropertyList, data, pos, remaining) == ReadPropertyList(data, pos, remaining)
  {
  }

  /** A readable property list, once written, is read back by `ReadPropertyList`. */
  lemma ListReadBack(ps: Properties, prefix: seq<Byte>, rest: seq<Byte>, remaining: UInt32)
    requires ReadableList(ps)
    ensures EncodeProperties(ps).Ok? && |EncodeProperties(ps).value| <= UInt32MaxValue
    ensures ReadPropertyList(prefix + EncodeProperties(ps).value + rest, |prefix|, remaining)
         == Ok((FromProperties(ps), |prefix| + |EncodeProperties(ps).value|,
                Sub32(remaining, |EncodeProperties(ps).value|)))
  {
    if ps.NotCreated? {
      EmptyListReadBack(prefix, rest, remaining);
    } else {
      var v, body := CreatedListBytes(ps);
      var data := prefix + (v + body) + rest;
      CreatedListRead(ps, data, prefix, v, body, rest, remaining);
    }
  }

  /** A list never created is written as a zero length and reads back as one never created. */
  lemma EmptyListReadBack(prefix: seq<Byte>, rest: seq<Byte>, remaining: UInt32)
    ensures EncodeProperties(NotCreated) == Ok([0])
    ensures ReadPropertyList(prefix + [0] + rest, |prefix|, remaining)
         == Ok((FromProperties(NotCreated), |prefix| + 1, Sub32(remaining, 1)))
  {
    DataEncoderHelper.Pow128Values();
    DataEncoderHelper.VbiRoundTrip(0, prefix, rest);
  }

  /** A created readable list is written as its size, then its properties, all within a `UInt32`. */
  lemma CreatedListBytes(ps: Properties) returns (v: seq<Byte>, body: seq<Byte>)
    requires ps.Created? && ReadableList(ps)
    ensures EncodeList(ps, 0) == Ok(body) && v == DataEncoderHelper.VbiEncode(|body|)
    ensures EncodeProperties(ps) == Ok(v + body)
    ensures |body| < Pow128(4) && |v + body| <= UInt32MaxValue
  {
    body := EncodeList(ps, 0).value;
    v := DataEncoderHelper.VbiEncode(|body|);
    ListEncodedSize(ps, 0);
    DataEncoderHelper.Pow128Values();
    DataEncoderHelper.RequiredBytesBound(|body|, 4);
  }

  /** The size of a created list is decoded, then its properties are read over that size. */
  lemma CreatedListRead(ps: Properties, data: seq<Byte>, prefix: seq<Byte>, v: seq<Byte>, body: seq<Byte>,
                        rest: seq<Byte>, remaining: UInt32)
    requires ps.Created? && |ps.items| > 0 && WellFormedFrom(ps.items, 0)
    requires EncodeList(ps, 0) == Ok(body) && v == DataEncoderHelper.VbiEncode(|body|)
    requires |body| < Pow128(4) && |v + body| <= UInt32MaxValue
    requires data == prefix + (v + body) + rest
    ensures ReadPropertyList(data, |prefix|, remaining)
         == Ok((FromProperties(ps), |prefix| + |v + body|, Sub32(remaining, |v + body|)))
  {
    assert |v + body| == |v| + |body|;
    CreatedListSize(data, prefix, v, body, rest);
    var p1, rem := |prefix| + |v|, Sub32(remaining, |v|);
    CreatedListLoop(ps, data, p1, body, rem);
    CreatedListAfterSize(ps, data, |prefix|, v, |body|, |v + body|, remaining);
  }

  /**
   * Once the size of a list is decoded at `pos`, what the loop reads over
   * that size is the list read, `total` bytes long with the size.
   */
  lemma CreatedListAfterSize(ps: Properties, data: seq<Byte>, pos: nat, v: seq<Byte>, size: nat, total: nat,
                             remaining: UInt32)
    requires v == DataEncoderHelper.VbiEncode(size) && size < Pow128(4) && total == |v| + size <= UInt32MaxValue
    requires pos <= |data| && DataEncoderHelper.VbiDecode(data, pos) == Ok((size, pos + |v|))
    requires pos + |v| <= |data|
    requires ReadPropertiesLoop(data, pos + |v|, size, Sub32(remaining, |v|), NotCreated)
          == Ok((ps, pos + |v| + size, Sub32(Sub32(remaining, |v|), size)))
    ensures ReadPropertyList(data, pos, remaining)
         == Ok((FromProperties(ps), pos + total, Sub32(remaining, total)))
  {
    SubSub(remaining, |v|, size);
    ListAssemble(data, pos, remaining, size, v, pos + |v|, ps, pos + total, Sub32(remaining, total));
  }

  /** The size of a written list is decoded, and its properties follow it. */
  lemma CreatedListSize(data: seq<Byte>, prefix: seq<Byte>, v: seq<Byte>, body: seq<Byte>, rest: seq<Byte>)
    requires |body| < Pow128(4) && v == DataEncoderHelper.VbiEncode(|body|)
    requires data == prefix + (v + body) + rest
    ensures DataEncoderHelper.VbiDecode(data, |prefix|) == Ok((|body|, |prefix| + |v|))
    ensures |prefix| + |v| + |body| <= |data| && data[|prefix| + |v|..|prefix| + |v| + |body|] == body
  {
    PieceSlices(data, prefix, v, body, rest);
    Reassociate(prefix, v, body, rest);
    DataEncoderHelper.VbiBeforeBody(prefix, v, body, rest);
    SameDecode(prefix + v + (body + rest), data, |prefix|);
  }

  /** Equal streams decode alike. */
  lemma SameDecode(x: seq<Byte>, y: seq<Byte>, pos: nat)
    requires x == y && pos <= |x|
    ensures DataEncoderHelper.VbiDecode(x, pos) == DataEncoderHelper.VbiDecode(y, pos)
  {
  }

  /** The same four pieces, grouped around the second or around the third. */
  lemma Reassociate<T>(a: seq<T>, b: seq<T>, c: seq<T>, d: seq<T>)
    ensures a + (b + c) + d == a + b + (c + d)
  {
  }

  /** The loop over the size of a created list reads the list, starting from none. */
  lemma CreatedListLoop(ps: Properties, data: seq<Byte>, p1: nat, body: seq<Byte>, rem: UInt32)
    requires ps.Created? && |ps.items| > 0 && WellFormedFrom(ps.items, 0)
    requires EncodeList(ps, 0) == Ok(body) && |body| <= UInt32MaxValue
    requires p1 + |body| <= |data| && data[p1..p1 + |body|] == body
    ensures ReadPropertiesLoop(data, p1, |body|, rem, NotCreated) == Ok((ps, p1 + |body|, Sub32(rem, |body|)))
  {
    ReadListRoundTrip(ps, 0, data, p1, rem, NotCreated);
    assert ps.items[0..] == ps.items;
    assert Appended(NotCreated, ps.items) == Created([] + ps.items) == ps;
  }

  /** `ReadPropertyList` from the length it decodes and what the loop reads over that length. */
  lemma ListAssemble(data: seq<Byte>, pos: nat, remaining: UInt32, size: nat, v: seq<Byte>, p1: nat,
                     ps: Properties, end: nat, r: UInt32)
    requires pos <= |data| && size < Pow128(4) && v == DataEncoderHelper.VbiEncode(size) && |v| <= UInt32MaxValue
    requires DataEncoderHelper.VbiDecode(data, pos) == Ok((size, p1))
    requires p1 <= |data| && size <= UInt32MaxValue
    requires ReadPropertiesLoop(data, p1, size, Sub32(remaining, |v|), NotCreated) == Ok((ps, end, r))
    ensures ReadPropertyList(data, pos, remaining) == Ok((FromProperties(ps), end, r))
  {
  }
}
