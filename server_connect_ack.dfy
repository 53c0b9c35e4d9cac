/**
 * `ServerConnectAckMessage`: what the client keeps of the server's CONNACK
 * packet (section 3.2 of the OASIS MQTT Version 5.0 standard).  Every field
 * is read from the variable header once, with the standard's default for a
 * property the server left out, so the message is a value.
 */
module ServerConnectAcks {
  import opened Bytes
  import opened PacketData
  import opened DataContainers
  import opened Packets

  /** A user property: its name and its value. */
  type StringPair = (Option<seq<Byte>>, Option<seq<Byte>>)

  datatype ServerConnectAck = ServerConnectAck(
    sessionPresent: bool,
    reasonCode: Byte,
    sessionExpiryInterval: Option<UInt32>,
    receiveMaximum: UInt16,
    maximumQoS: QoSLevel,
    retainAvailable: bool,
    maximumPacketSize: UInt32,
    assignedClientIdentifier: Option<seq<Byte>>,
    topicAliasMaximum: UInt16,
    reasonString: Option<seq<Byte>>,
    userProperties: Option<seq<StringPair>>,
    wildcardSubscriptionAvailable: bool,
    subscriptionIdentifiersAvailable: bool,
    sharedSubscriptionAvailable: bool,
    serverKeepAlive: Option<UInt16>,
    responseInformation: Option<seq<Byte>>,
    serverReference: Option<seq<Byte>>,
    authenticationMethod: Option<seq<Byte>>,
    authenticationData: seq<Byte>)

  /** A property's integer, or the default when the property is absent. */
  function IntegerOr(ps: Properties, id: UInt32, dataType: DataType, default: UInt32): UInt32
  {
    var d := FindData(ps, id, dataType);
    if d.Some? then d.value.integer else default
  }

  /** A property's integer as the optional C# field, `null` when the property is absent. */
  function IntegerIfPresent(ps: Properties, id: UInt32, dataType: DataType): Option<UInt32>
  {
    var d := FindData(ps, id, dataType);
    if d.Some? then Some(d.value.integer) else None
  }

  /** A one-byte availability flag: set when above zero, and true when the property is absent. */
  function AvailableOr(ps: Properties, id: UInt32): bool
  {
    var d := FindData(ps, id, SingleByte);
    if d.Some? then d.value.integer > 0 else true
  }

  /** A string property, `null` when absent. */
  function StringOf(ps: Properties, id: UInt32): Option<seq<Byte>>
  {
    var d := FindData(ps, id, UTF8String);
    if d.Some? then d.value.key else None
  }

  /** The name and value of each user property from the `i`-th property on, in order. */
  function UserPairsFrom(l: seq<Property>, i: nat): seq<StringPair>
    requires i <= |l|
    decreases |l| - i
  {
    if i == |l| then []
    else if l[i].id == UserProperty then [(l[i].data.key, l[i].data.value)] + UserPairsFrom(l, i + 1)
    else UserPairsFrom(l, i + 1)
  }

  /** `ForEach(UserProperty, ...)`: the list is created by the first user property, and stays `null` without one. */
  function UserProperties(ps: Properties): Option<seq<StringPair>>
  {
    var pairs := UserPairsFrom(Items(ps), 0);
    if pairs == [] then None else Some(pairs)
  }

  /**
   * The constructor: the session-present bit and the reason code are the
   * first two variable header fields, the rest comes from the properties.
   * A header without a list answers both indexes with its single slot, so
   * reading them never throws.
   */
  function FromPacket(header: DataContainer): (m: ServerConnectAck)
    reads header
    requires header.Valid()
    ensures var ps := header.Properties();
            (FindData(ps, ReceiveMaximum, TwoByteInteger).None? ==> m.receiveMaximum == 0xFFFF)
            && (FindData(ps, MaximumPacketSize, FourByteInteger).None? ==> m.maximumPacketSize == UInt32MaxValue)
            && (FindData(ps, MaximumQoS, SingleByte).None? ==> m.maximumQoS == ExactlyOnceDelivery)
            && (FindData(ps, TopicAliasMaximum, TwoByteInteger).None? ==> m.topicAliasMaximum == 0)
            && (FindData(ps, RetainAvailable, SingleByte).None? ==> m.retainAvailable)
            && (FindData(ps, SessionExpiryInterval, FourByteInteger).None? ==> m.sessionExpiryInterval.None?)
  {
    var flags := header.Get(0).value;
    var code := header.Get(1).value;
    var ps := header.Properties();
    ServerConnectAck(
        sessionPresent := flags.bits & 1 != 0,
        reasonCode := code.integer % 0x100,
        sessionExpiryInterval := IntegerIfPresent(ps, SessionExpiryInterval, FourByteInteger),
        receiveMaximum := IntegerOr(ps, ReceiveMaximum, TwoByteInteger, 0xFFFF) % 0x1_0000,
        maximumQoS := IntegerOr(ps, MaximumQoS, SingleByte, ExactlyOnceDelivery) % 0x100,
        retainAvailable := AvailableOr(ps, RetainAvailable),
        maximumPacketSize := IntegerOr(ps, MaximumPacketSize, FourByteInteger, UInt32MaxValue),
        assignedClientIdentifier := StringOf(ps, AssignedClientIdentifier),
        topicAliasMaximum := IntegerOr(ps, TopicAliasMaximum, TwoByteInteger, 0) % 0x1_0000,
        reasonString := StringOf(ps, ReasonString),
        userProperties := UserProperties(ps),
        wildcardSubscriptionAvailable := AvailableOr(ps, WildcardSubscriptionAvailable),
        subscriptionIdentifiersAvailable := AvailableOr(ps, SubscriptionIdentifierAvailable),
        sharedSubscriptionAvailable := AvailableOr(ps, SharedSubscriptionAvailable),
        serverKeepAlive := Truncated16(IntegerIfPresent(ps, ServerKeepAlive, TwoByteInteger)),
        responseInformation := StringOf(ps, ResponseInformation),
        serverReference := StringOf(ps, ServerReference),
        authenticationMethod := StringOf(ps, AuthenticationMethod),
        authenticationData := var d := FindData(ps, AuthenticationData, Binary);
                              if d.Some? then d.value.binary else [])
  }

  /** The C# cast `(UInt16?)` of an optional integer. */
  function Truncated16(v: Option<UInt32>): Option<UInt16>
  {
    if v.Some? then Some(v.value % 0x1_0000) else None
  }

  /**
   * Absent properties take the standard's defaults: 65535 for Receive
   * Maximum, the unsigned 32-bit maximum for Maximum Packet Size, QoS 2,
   * no topic aliases, every feature available, and no optional value.
   */
  lemma AbsentDefaults(header: DataContainer)
    requires header.Valid()
    requires Items(header.Properties()) == []
    ensures var m := FromPacket(header);
            m.receiveMaximum == 0xFFFF && m.maximumPacketSize == UInt32MaxValue
            && m.maximumQoS == ExactlyOnceDelivery && m.topicAliasMaximum == 0
            && m.retainAvailable && m.wildcardSubscriptionAvailable
            && m.subscriptionIdentifiersAvailable && m.sharedSubscriptionAvailable
            && m.sessionExpiryInterval.None? && m.serverKeepAlive.None?
            && m.assignedClientIdentifier.None? && m.reasonString.None? && m.userProperties.None?
            && m.authenticationData == []
  {
  }

  /**
   * A property present with the data type the field reads takes the place of
   * the default, cast to the field's width.
   */
  lemma PresentOverridesDefault(header: DataContainer)
    requires header.Valid()
    ensures var ps, m := header.Properties(), FromPacket(header);
            var rm, mp := FindData(ps, ReceiveMaximum, TwoByteInteger), FindData(ps, MaximumPacketSize, FourByteInteger);
            var ta, q := FindData(ps, TopicAliasMaximum, TwoByteInteger), FindData(ps, MaximumQoS, SingleByte);
            (rm.Some? ==> m.receiveMaximum == rm.value.integer % 0x1_0000)
            && (mp.Some? ==> m.maximumPacketSize == mp.value.integer)
            && (ta.Some? ==> m.topicAliasMaximum == ta.value.integer % 0x1_0000)
            && (q.Some? ==> m.maximumQoS == q.value.integer % 0x100)
  {
  }

  /**
   * The session is present exactly when bit 0 of the acknowledge flags is
   * set, and the reason code is the second field, cast to a byte.
   */
  lemma FlagsAndReasonCode(header: DataContainer)
    requires header.Valid() && header.fields.Some?
    ensures FromPacket(header).sessionPresent == BitFields.BitOf(header.Contents()[0].bits, 0)
    ensures FromPacket(header).reasonCode == header.Contents()[1].integer % 0x100
  {
  }
}
