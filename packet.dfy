/**
 * `Packet`: an MQTT control packet as the client builds it, its type, the
 * flags of its fixed header, its variable header fields and its payload
 * (section 2 of the OASIS MQTT Version 5.0 standard).  The C# struct is
 * filled in place, so it is a class here holding its bit field and its two
 * containers.
 */
module Packets {
  import opened Bytes
  import opened PacketData
  import opened DataContainers
  import opened BitFields
  import DataEncoderHelper

  /** `PacketTypes`, in the order of their codes 0 to 15. */
  datatype PacketType =
    | Reserved | Connect | ConnectAck | Publish | PublishAck | PublishReceived | PublishRelease
    | PublishComplete | Subscribe | SubscribeAck | Unsubscribe | UnsubscribeAck | PingRequest
    | PingResponse | Disconnect | Auth

  /** `QoSLevels`, a byte enumeration: a cast may give it any byte. */
  type QoSLevel = Byte
  const AtMostOnceDelivery: QoSLevel := 0
  const AtLeastOnceDelivery: QoSLevel := 1
  const ExactlyOnceDelivery: QoSLevel := 2

  /** The code of a packet type, which fits the four high bits of the fixed header's first byte. */
  function TypeCode(t: PacketType): (c: bv8)
    ensures c < 16
  {
    match t
    case Reserved => 0 case Connect => 1 case ConnectAck => 2 case Publish => 3
    case PublishAck => 4 case PublishReceived => 5 case PublishRelease => 6 case PublishComplete => 7
    case Subscribe => 8 case SubscribeAck => 9 case Unsubscribe => 10 case UnsubscribeAck => 11
    case PingRequest => 12 case PingResponse => 13 case Disconnect => 14 case Auth => 15
  }

  /** Distinct types have distinct codes. */
  lemma TypeCodeInjective(s: PacketType, t: PacketType)
    ensures TypeCode(s) == TypeCode(t) <==> s == t
  {
  }

  /** The first byte of the fixed header: the flags combined with the type shifted into the high nibble. */
  function FixedHeaderByte(t: PacketType, flags: bv8): bv8
  {
    flags | (TypeCode(t) << 4)
  }

  /**
   * With flags in the low nibble, as every packet type's flags are, the
   * first byte holds the type in its high nibble and the flags in its low one.
   */
  lemma HeaderNibbles(t: PacketType, flags: bv8)
    requires flags < 16
    ensures FixedHeaderByte(t, flags) >> 4 == TypeCode(t)
    ensures FixedHeaderByte(t, flags) & 0x0F == flags
  {
    var c := TypeCode(t);
    assert (flags | (c << 4)) >> 4 == c by {
      assert flags >> 4 == 0;
    }
  }

  /** `CalculatePayloadSize`: the variable header's size plus the payload's. */
  function PayloadSize(header: seq<Data>, payload: seq<Data>): Result<nat>
  {
    match SizeFrom(header, 0)
    case Err(e) => Err(e)
    case Ok(h) => AddSize(h, SizeFrom(payload, 0))
  }

  /** `CalculatePacketSize`: the first byte, the remaining length as a Variable Byte Integer, and the rest. */
  function PacketSize(header: seq<Data>, payload: seq<Data>): Result<nat>
  {
    match PayloadSize(header, payload)
    case Err(e) => Err(e)
    case Ok(s) => Ok(1 + DataEncoderHelper.RequiredBytes(s) + s)
  }

  /**
   * `EncodeInto`: the first byte, the remaining length, then the variable
   * header's fields and the payload's.
   */
  function Encoding(t: PacketType, flags: bv8, header: seq<Data>, payload: seq<Data>): Result<seq<Byte>>
  {
    match PayloadSize(header, payload)
    case Err(e) => Err(e)
    case Ok(size) =>
      match EncodeFrom(header, 0)
      case Err(e) => Err(e)
      case Ok(h) =>
        match EncodeFrom(payload, 0)
        case Err(e) => Err(e)
        case Ok(p) => Ok([FixedHeaderByte(t, flags) as Byte] + DataEncoderHelper.VbiEncode(size) + h + p)
  }

  /** A written packet is exactly `CalculatePacketSize` bytes long. */
  lemma EncodingSize(t: PacketType, flags: bv8, header: seq<Data>, payload: seq<Data>)
    ensures Encoding(t, flags, header, payload).Ok? ==>
              PacketSize(header, payload) == Ok(|Encoding(t, flags, header, payload).value|)
  {
    EncodeFromSize(header, 0);
    EncodeFromSize(payload, 0);
  }

  /**
   * A written packet starts with its first byte, and its remaining length
   * decodes back to the size of what follows it, when that size fits the
   * four bytes the standard allows.
   */
  lemma FixedHeaderRoundTrip(t: PacketType, flags: bv8, header: seq<Data>, payload: seq<Data>)
    requires Encoding(t, flags, header, payload).Ok?
    requires PayloadSize(header, payload).value < Pow128(4)
    ensures var e, size := Encoding(t, flags, header, payload).value, PayloadSize(header, payload).value;
            var n := |DataEncoderHelper.VbiEncode(size)|;
            e[0] == FixedHeaderByte(t, flags) as Byte
            && DataEncoderHelper.VbiDecode(e, 1) == Ok((size, 1 + n))
            && |e| == 1 + n + size
  {
    var e, size := Encoding(t, flags, header, payload).value, PayloadSize(header, payload).value;
    var first := [FixedHeaderByte(t, flags) as Byte];
    var body := EncodeFrom(header, 0).value + EncodeFrom(payload, 0).value;
    assert e == first + DataEncoderHelper.VbiEncode(size) + body;
    DataEncoderHelper.VbiRoundTrip(size, first, body);
    EncodingSize(t, flags, header, payload);
  }

  class Packet {
    var ptype: PacketType
    const flags: BitField
    const variableHeaderFields: DataContainer
    const payload: DataContainer

    /** The two containers are distinct objects, each valid. */
    ghost predicate Valid()
      reads this, variableHeaderFields, payload
    {
      variableHeaderFields != payload && variableHeaderFields.Valid() && payload.Valid()
    }

    /** `Packet.Empty()`: the reserved type, no flags, no fields. */
    constructor Empty()
      ensures Valid() && ptype == Reserved && flags.bits == 0
      ensures variableHeaderFields.Contents() == [] && payload.Contents() == []
      ensures fresh(flags) && fresh(variableHeaderFields) && fresh(payload)
    {
      ptype := Reserved;
      flags := new BitField(0);
      variableHeaderFields := new DataContainer();
      payload := new DataContainer();
    }

    method AddVariableHeader(header: Data)
      requires Valid()
      modifies variableHeaderFields
      ensures Valid()
      ensures variableHeaderFields.Contents()
           == if old(variableHeaderFields.Contents()) == [] && !IsSet(header) then []
              else old(variableHeaderFields.Contents()) + [header]
      ensures payload.Contents() == old(payload.Contents())
    {
      variableHeaderFields.Add(header);
    }

    method SetPayload(data: Data)
      requires Valid()
      modifies payload
      ensures Valid()
      ensures payload.Contents() == if IsSet(data) then [data] else []
      ensures variableHeaderFields.Contents() == old(variableHeaderFields.Contents())
    {
      payload.Set(data);
    }

    method AddPayload(data: Data)
      requires Valid()
      modifies payload
      ensures Valid()
      ensures payload.Contents()
           == if old(payload.Contents()) == [] && !IsSet(data) then [] else old(payload.Contents()) + [data]
      ensures variableHeaderFields.Contents() == old(variableHeaderFields.Contents())
    {
      payload.Add(data);
    }

    method CalculatePayloadSize() returns (r: Result<nat>)
      requires Valid()
      ensures r == PayloadSize(variableHeaderFields.Contents(), payload.Contents())
    {
      var h := variableHeaderFields.CalculateByteSize();
      if h.Err? {
        return Err(h.reason);
      }
      var p := payload.CalculateByteSize();
      return AddSize(h.value, p);
    }

    method CalculatePacketSize() returns (r: Result<nat>)
      requires Valid()
      ensures r == PacketSize(variableHeaderFields.Contents(), payload.Contents())
    {
      var size := CalculatePayloadSize();
      if size.Err? {
        return Err(size.reason);
      }
      return Ok(1 + DataEncoderHelper.RequiredBytes(size.value) + size.value);
    }

    /** Writes the packet from a copy of the flags, so the packet's own flags stay as they were. */
    method EncodeInto() returns (r: Result<seq<Byte>>)
      requires Valid()
      ensures r == Encoding(ptype, flags.bits, variableHeaderFields.Contents(), payload.Contents())
    {
      var bitField := flags.Clone();
      bitField.CombineWith(TypeCode(ptype) << 4);
      var first := [bitField.bits as Byte];
      var size := CalculatePayloadSize();
      if size.Err? {
        return Err(size.reason);
      }
      var h := variableHeaderFields.EncodeInto();
      if h.Err? {
        return Err(h.reason);
      }
      var p := payload.EncodeInto();
      if p.Err? {
        return Err(p.reason);
      }
      return Ok(first + DataEncoderHelper.VbiEncode(size.value) + h.value + p.value);
    }
  }
}
