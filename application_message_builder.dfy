/**
 * `ApplicationMessagePacketBuilder`: collects the parts of a PUBLISH packet
 * (section 3.3 of the OASIS MQTT Version 5.0 standard) and builds it.  The
 * builder keeps its flags, QoS, topic name, packet identifier, properties and
 * payload and updates them in place, so it is a class.  Topic names are held
 * as their UTF-8 bytes; the two wildcard characters are single ASCII bytes,
 * which never occur inside the encoding of another character.
 */
module ApplicationMessages {
  import opened Bytes
  import opened PacketData
  import opened BitFields
  import opened Packets
  import ServerConnectAcks

  /** The multi-level wildcard `#` and the single-level wildcard `+` as UTF-8 bytes. */
  const MultiLevelWildcard: Byte := 0x23
  const SingleLevelWildcard: Byte := 0x2B

  /** The QoS a PUBLISH packet's fixed header carries in bits 2 and 1. */
  function QoSOfFlags(bits: bv8): (q: nat)
    ensures q <= 3
  {
    ((bits >> 1) & 3) as nat
  }

  /**
   * Flags whose bit 1 is set exactly for QoS 1 and bit 2 exactly for QoS 2
   * carry that QoS in the fixed header.
   */
  lemma QoSFromBits(bits: bv8, qos: QoSLevel)
    requires qos <= ExactlyOnceDelivery
    requires BitOf(bits, 1) == (qos == AtLeastOnceDelivery)
    requires BitOf(bits, 2) == (qos == ExactlyOnceDelivery)
    ensures QoSOfFlags(bits) == qos
  {
    assert Mask(1) == 2 && Mask(2) == 4;
    if qos == AtMostOnceDelivery {
      assert bits & 6 == 0;
    } else if qos == AtLeastOnceDelivery {
      assert bits & 6 == 2;
    } else {
      assert bits & 6 == 4;
    }
  }

  /**
   * The reserved bit 4 that `Build` sets lies inside the PUBLISH type code
   * (3, so bits 5 and 4), so the written first byte is the same with or
   * without it: type 3 in the high nibble, the flags in the low one.
   */
  lemma ReservedBitAbsorbed(bits: bv8)
    requires bits < 16
    ensures FixedHeaderByte(Publish, bits | 0x10) == FixedHeaderByte(Publish, bits)
    ensures FixedHeaderByte(Publish, bits | 0x10) >> 4 == 3
    ensures FixedHeaderByte(Publish, bits | 0x10) & 0x0F == bits
  {
    HeaderNibbles(Publish, bits);
  }

  /** The variable header `Build` writes: the topic name, the identifier when above 0, the properties for version 5. */
  function PublishHeader(topic: seq<Byte>, packetId: UInt16, ps: Properties, isV5: bool): seq<Data>
  {
    [FromString(Some(topic))]
      + (if packetId > 0 then [FromTwoByteInteger(packetId)] else [])
      + (if isV5 then [FromProperties(ps)] else [])
  }

  /** The payload `Build` writes: the raw bytes when there are any, else nothing. */
  function PublishPayload(payload: Option<seq<Byte>>): seq<Data>
  {
    if payload.Some? then [FromRaw(payload)] else []
  }

  /**
   * Why `Build` throws, in the order it checks: a QoS above the server's
   * maximum, a missing or empty topic name, a topic alias above the server's
   * maximum.
   */
  function BuildError(qos: QoSLevel, topic: Option<seq<Byte>>, ps: Properties,
                      server: ServerConnectAcks.ServerConnectAck): Option<string>
  {
    var alias := FindData(ps, TopicAlias, TwoByteInteger);
    if qos > server.maximumQoS then Some("QoS above server maximum")
    else if topic.None? || topic.value == [] then Some("empty topic name")
    else if alias.Some? && alias.value.integer > server.topicAliasMaximum then
      Some("topic alias above server maximum")
    else None
  }

  /** `Build` accepts exactly the messages within the server's limits that have a topic name. */
  lemma BuildAccepts(qos: QoSLevel, topic: Option<seq<Byte>>, ps: Properties,
                     server: ServerConnectAcks.ServerConnectAck)
    ensures BuildError(qos, topic, ps, server).None? <==>
              qos <= server.maximumQoS && topic.Some? && |topic.value| > 0
              && forall d :: FindData(ps, TopicAlias, TwoByteInteger) == Some(d) ==> d.integer <= server.topicAliasMaximum
  {
  }

  /** A search over a list with one more property sees the new one only when nothing before it matched. */
  lemma {:induction false} FindFromAppend(l: seq<Property>, i: nat, p: Property, id: UInt32, dataType: DataType)
    requires i <= |l|
    ensures FindFrom(l + [p], i, id, dataType)
         == if FindFrom(l, i, id, dataType).Some? then FindFrom(l, i, id, dataType)
            else if Holds(p, id, dataType) then Some(p.data) else None
    decreases |l| - i
  {
    if i < |l| {
      assert (l + [p])[i] == l[i];
      FindFromAppend(l, i + 1, p, id, dataType);
    } else {
      assert (l + [p])[i] == p;
    }
  }

  /**
   * The alias `Build` checks is the first one set: a later `WithTopicAlias`
   * adds its property behind the earlier one, where the search never looks.
   */
  lemma FirstAliasChecked(ps: Properties, alias: UInt16)
    requires alias != 0
    ensures var found := FindData(AddProperty(ps, Property(TopicAlias, FromTwoByteInteger(alias))), TopicAlias, TwoByteInteger);
            found == if FindData(ps, TopicAlias, TwoByteInteger).Some? then FindData(ps, TopicAlias, TwoByteInteger)
                     else Some(FromTwoByteInteger(alias))
  {
    FindFromAppend(Items(ps), 0, Property(TopicAlias, FromTwoByteInteger(alias)), TopicAlias, TwoByteInteger);
  }

  /**
   * The variable header's size: the topic name with its two-byte length,
   * two bytes of identifier when there is one, and the property list with
   * its length for version 5.
   */
  lemma PublishHeaderSize(topic: seq<Byte>, packetId: UInt16, ps: Properties, isV5: bool)
    requires isV5 ==> PropertiesByteSize(ps, true).Ok?
    ensures DataContainers.SizeFrom(PublishHeader(topic, packetId, ps, isV5), 0)
         == Ok(2 + |topic| + (if packetId > 0 then 2 else 0)
               + (if isV5 then PropertiesByteSize(ps, true).value else 0))
  {
    var h := PublishHeader(topic, packetId, ps, isV5);
    assert DataEncoderHelper.CalculateByteSize(Some(topic)) == 2 + |topic|;
    if packetId > 0 {
      assert h[1] == FromTwoByteInteger(packetId);
      if isV5 {
        var n := PropertiesByteSize(ps, true).value;
        assert h[2] == FromProperties(ps);
        assert DataContainers.SizeFrom(h, 3) == Ok(0);
        assert DataContainers.SizeFrom(h, 2) == Ok(n);
        assert DataContainers.SizeFrom(h, 1) == Ok(2 + n);
      } else {
        assert DataContainers.SizeFrom(h, 2) == Ok(0);
      }
    } else if isV5 {
      assert h[1] == FromProperties(ps);
      assert DataContainers.SizeFrom(h, 2) == Ok(0);
    } else {
      assert DataContainers.SizeFrom(h, 1) == Ok(0);
    }
  }

  /**
   * The packet `Build` fills in: type PUBLISH, the builder's flags copied,
   * the topic name, the identifier when above 0, the properties for version
   * 5, and the payload when there is one.
   */
  method NewPublishPacket(bits: bv8, topic: seq<Byte>, packetId: UInt16, ps: Properties, isV5: bool,
                          payload: Option<seq<Byte>>) returns (p: Packet)
    ensures fresh(p) && fresh(p.flags) && fresh(p.variableHeaderFields) && fresh(p.payload)
    ensures p.Valid() && p.ptype == Publish && p.flags.bits == bits
    ensures p.variableHeaderFields.Contents() == PublishHeader(topic, packetId, ps, isV5)
    ensures p.payload.Contents() == PublishPayload(payload)
  {
    p := new Packet.Empty();
    p.ptype := Publish;
    p.flags.CombineWith(bits);
    assert p.flags.bits == bits by {
      assert (0 as bv8) | bits == bits;
    }
    p.AddVariableHeader(FromString(Some(topic)));
    ghost var h := [FromString(Some(topic))];
    assert p.variableHeaderFields.Contents() == h;
    if packetId > 0 {
      p.AddVariableHeader(FromTwoByteInteger(packetId));
      h := h + [FromTwoByteInteger(packetId)];
    }
    assert p.variableHeaderFields.Contents() == h;
    if isV5 {
      p.AddVariableHeader(FromProperties(ps));
      h := h + [FromProperties(ps)];
    }
    assert p.variableHeaderFields.Contents() == h == PublishHeader(topic, packetId, ps, isV5);
    if payload.Some? {
      p.AddPayload(FromRaw(payload));
    }
  }

  class ApplicationMessagePacketBuilder {
    /** `_flags`: bit 0 retain, bits 1 and 2 the QoS, bit 3 duplicate. */
    const flags: BitField
    var qos: QoSLevel
    /** `_topicName`, `None` while `null`. */
    var topicName: Option<seq<Byte>>
    var packetId: UInt16
    /** The property builder's list. */
    var properties: Properties
    /** `_payload`, `None` while `null`. */
    var payload: Option<seq<Byte>>

    /** A message sent at most once carries no packet identifier. */
    ghost predicate Valid()
      reads this
    {
      qos == AtMostOnceDelivery ==> packetId == 0
    }

    /** A new builder: no flags, QoS 0, no topic, identifier 0, no properties, no payload. */
    constructor()
      ensures Valid() && fresh(flags) && flags.bits == 0
      ensures qos == AtMostOnceDelivery && topicName.None? && packetId == 0
      ensures properties == NotCreated && payload.None?
    {
      flags := new BitField(0);
      qos := AtMostOnceDelivery;
      topicName := None;
      packetId := 0;
      properties := NotCreated;
      payload := None;
    }

    /** `WithDuplicate`: sets the DUP flag, bit 3; no other bit changes. */
    method WithDuplicate()
      modifies flags
      ensures flags.IsSet(3)
      ensures forall i: nat :: i < 8 && i != 3 ==> flags.IsSet(i) == old(flags.IsSet(i))
    {
      flags.Set(3, true);
    }

    /** `WithPacketId`: refused for a nonzero identifier while the QoS is 0. */
    method WithPacketId(id: UInt16) returns (r: Result<()>)
      modifies this
      ensures r.Ok? || old(Valid()) ==> Valid()
      ensures r.Err? <==> id != 0 && qos == AtMostOnceDelivery
      ensures packetId == if r.Ok? then id else old(packetId)
      ensures qos == old(qos) && topicName == old(topicName)
      ensures properties == old(properties) && payload == old(payload)
    {
      if id != 0 && qos == AtMostOnceDelivery {
        return Err("packet identifier at QoS 0");
      }
      packetId := id;
      return Ok(());
    }

    /**
     * `WithQoS`: bits 2 and 1 of the flags take the QoS, and QoS 1 and 2 take
     * `nextId`, the identifier the client hands out next; QoS 0 drops the
     * identifier.  Any other value of the enumeration is stored and changes
     * nothing else.
     */
    method WithQoS(level: QoSLevel, nextId: UInt16)
      requires Valid()
      modifies this, flags
      ensures Valid() && qos == level
      ensures level <= ExactlyOnceDelivery ==> QoSOfFlags(flags.bits) == level
      ensures level <= ExactlyOnceDelivery ==>
                forall i: nat :: i < 8 && i != 1 && i != 2 ==> flags.IsSet(i) == old(flags.IsSet(i))
      ensures level > ExactlyOnceDelivery ==> flags.bits == old(flags.bits)
      ensures packetId == if level == AtMostOnceDelivery then 0
                          else if level <= ExactlyOnceDelivery then nextId
                          else old(packetId)
      ensures topicName == old(topicName) && properties == old(properties) && payload == old(payload)
    {
      qos := level;
      if level == AtMostOnceDelivery {
        flags.Set(1, false);
        flags.Set(2, false);
        var _ := WithPacketId(0);
      } else if level == AtLeastOnceDelivery {
        flags.Set(2, false);
        flags.Set(1, true);
        var _ := WithPacketId(nextId);
      } else if level == ExactlyOnceDelivery {
        flags.Set(2, true);
        flags.Set(1, false);
        var _ := WithPacketId(nextId);
      }
      if level <= ExactlyOnceDelivery {
        QoSFromBits(flags.bits, level);
      }
    }

    /** `WithRetain`: bit 0 of the flags; no other bit changes. */
    method WithRetain(retain: bool)
      modifies flags
      ensures flags.IsSet(0) == retain
      ensures forall i: nat :: 0 < i < 8 ==> flags.IsSet(i) == old(flags.IsSet(i))
    {
      flags.Set(0, retain);
    }

    /** `WithTopicName`: a name holding either wildcard character is refused [MQTT-3.3.2-2]. */
    method WithTopicName(name: seq<Byte>) returns (r: Result<()>)
      requires Valid()
      modifies this
      ensures Valid()
      ensures r.Err? <==> MultiLevelWildcard in name || SingleLevelWildcard in name
      ensures topicName == if r.Ok? then Some(name) else old(topicName)
      ensures qos == old(qos) && packetId == old(packetId)
      ensures properties == old(properties) && payload == old(payload)
    {
      if MultiLevelWildcard in name || SingleLevelWildcard in name {
        return Err("wildcard in topic name");
      }
      topicName := Some(name);
      return Ok(());
    }

    /**
     * `WithTopicAlias`: refused before version 5.0 and for alias 0; else the
     * alias is appended to the properties.
     */
    method WithTopicAlias(alias: UInt16, isV5: bool) returns (r: Result<()>)
      requires Valid()
      modifies this
      ensures Valid()
      ensures r.Err? <==> !isV5 || alias == 0
      ensures properties == if r.Ok? then AddProperty(old(properties), Property(TopicAlias, FromTwoByteInteger(alias)))
                            else old(properties)
      ensures qos == old(qos) && packetId == old(packetId)
      ensures topicName == old(topicName) && payload == old(payload)
    {
      if !isV5 {
        return Err("topic alias before v5.0");
      }
      if alias == 0 {
        return Err("topic alias 0");
      }
      properties := AddProperty(properties, Property(TopicAlias, FromTwoByteInteger(alias)));
      return Ok(());
    }

    /** `WithPayload` with a byte array, `None` for `null`. */
    method WithPayload(bytes: Option<seq<Byte>>)
      requires Valid()
      modifies this
      ensures Valid() && payload == bytes
      ensures qos == old(qos) && packetId == old(packetId)
      ensures topicName == old(topicName) && properties == old(properties)
    {
      payload := bytes;
    }

    /**
     * `Build`: checks the message against the server's CONNACK, sets the
     * reserved bit 4 of the builder's own flags, and fills a new PUBLISH
     * packet with a copy of them.  The alias check comes after the bit is set,
     * so a refused alias still leaves it set; it also comes after the topic
     * name and identifier are added to the packet, which is then dropped, so
     * here it is made before the packet is created.
     */
    method Build(server: ServerConnectAcks.ServerConnectAck, isV5: bool) returns (r: Result<Packet>)
      requires Valid()
      modifies flags
      ensures r.Err? <==> BuildError(qos, topicName, properties, server).Some?
      ensures qos > server.maximumQoS || topicName.None? || topicName.value == [] ==> flags.bits == old(flags.bits)
      ensures qos <= server.maximumQoS && topicName.Some? && topicName.value != [] ==> flags.bits == old(flags.bits) | 0x10
      ensures r.Ok? ==>
                var p := r.value;
                fresh(p) && fresh(p.flags) && fresh(p.variableHeaderFields) && fresh(p.payload)
                && p.Valid() && p.ptype == Publish && p.flags.bits == flags.bits
                && p.variableHeaderFields.Contents() == PublishHeader(topicName.value, packetId, properties, isV5)
                && p.payload.Contents() == PublishPayload(payload)
    {
      if qos > server.maximumQoS {
        return Err("QoS above server maximum");
      }
      if topicName.None? || topicName.value == [] {
        return Err("empty topic name");
      }
      flags.Set(4, true);
      assert Mask(4) == 0x10;
      var alias := FindData(properties, TopicAlias, TwoByteInteger);
      if alias.Some? && alias.value.integer > server.topicAliasMaximum {
        return Err("topic alias above server maximum");
      }
      var packet := NewPublishPacket(flags.bits, topicName.value, packetId, properties, isV5, payload);
      return Ok(packet);
    }
  }
}
