/**
 * The values the MQTT client works with: its states, the packets it sends,
 * the events it raises, the session it keeps between connections, and the
 * functions its packet handlers are specified by.
 */
module ClientModels {
  import opened Bytes
  import opened Packets
  import opened OutgoingPacketDatabases
  import Subscriptions
  import ServerConnectAcks
  import DataContainers
  import PacketData
  import UInt16Databases
  import ApplicationMessages

  // ------------------------------------------------------------ states

  /** `ClientStates`; the client compares states in declaration order. */
  datatype ClientState = Initial | TransportConnecting | TransportConnected | Connected | Disconnecting | Disconnected

  /** A state's place in the declaration order. */
  function Rank(s: ClientState): nat
  {
    match s
    case Initial => 0
    case TransportConnecting => 1
    case TransportConnected => 2
    case Connected => 3
    case Disconnecting => 4
    case Disconnected => 5
  }

  /** The order is total: equal ranks are equal states. */
  lemma RankInjective(s: ClientState, t: ClientState)
    ensures Rank(s) == Rank(t) <==> s == t
  {
  }

  // ------------------------------------------------------- reason codes

  const Success: Byte := 0x00
  const NormalDisconnection: Byte := 0x00
  const UnspecifiedError: Byte := 0x80
  const PacketIdentifierNotFound: Byte := 0x92

  /** The values `DisconnectReasonCodes` declares. */
  const DisconnectCodes: set<Byte> := {0x00, 0x04, 0x80, 0x81, 0x82, 0x83, 0x87, 0x89, 0x8B, 0x8D, 0x8E,
                                       0x8F, 0x90, 0x93, 0x94, 0x95, 0x96, 0x97, 0x98, 0x99, 0x9A, 0x9B,
                                       0x9C, 0x9D, 0x9E, 0x9F, 0xA0, 0xA1, 0xA2}

  /** `MQTTErrorTypes`. */
  datatype ErrorType = MalformedPacket | ProtocolError | ReceiveMaximumExceeded | PacketTooLarge

  /** The disconnect reason `MQTTError` sends and reports for an internal error. */
  function DisconnectCodeOf(e: ErrorType): Byte
  {
    match e
    case MalformedPacket => 0x81
    case ProtocolError => 0x82
    case ReceiveMaximumExceeded => 0x93
    case PacketTooLarge => 0x95
  }

  /** Each error has a declared error code of its own. */
  lemma DisconnectCodesDistinct(a: ErrorType, b: ErrorType)
    ensures DisconnectCodeOf(a) in DisconnectCodes && DisconnectCodeOf(a) >= UnspecifiedError
    ensures DisconnectCodeOf(a) == DisconnectCodeOf(b) <==> a == b
  {
  }

  /**
   * `SwitchCode` of the CONNACK handler: a CONNACK reason code that
   * `DisconnectReasonCodes` also declares is kept, any other becomes
   * `UnspecifiedError`.
   */
  function SwitchCode(code: Byte): Byte
  {
    if code in DisconnectCodes then code else UnspecifiedError
  }

  /**
   * A refused connection is reported with a declared error code: its own
   * when `DisconnectReasonCodes` has it, `UnspecifiedError` otherwise.
   */
  lemma SwitchCodeIsError(code: Byte)
    requires code >= UnspecifiedError
    ensures SwitchCode(code) in DisconnectCodes && SwitchCode(code) >= UnspecifiedError
    ensures code in DisconnectCodes <==> SwitchCode(code) == code
  {
  }

  // -------------------------------------------------------- send quota

  /**
   * The quota after `IncrementAndReplenishQueue`'s first line: one more,
   * cast to 16 bits, and no more than the maximum.
   */
  function Incremented(quota: UInt16, max: UInt16): (q: UInt16)
    ensures q <= max
  {
    var w := (quota + 1) % 0x1_0000;
    if max < w then max else w
  }

  /** Below the maximum the quota grows by one; at a maximum below 65535 it stays. */
  lemma IncrementedGrows(quota: UInt16, max: UInt16)
    requires quota <= max
    ensures quota < max ==> Incremented(quota, max) == quota + 1
    ensures quota == max < 0xFFFF ==> Incremented(quota, max) == max
    ensures quota == max == 0xFFFF ==> Incremented(quota, max) == 0
  {
  }

  /**
   * The quota a successful CONNACK sets, `Max((UInt16)(ReceiveMaximum - 1), 1)`:
   * never 0 and, for a Receive Maximum the standard allows (not 0), never
   * above it [MQTT-4.9.0-1]; a Receive Maximum of 0 wraps to 65535.
   */
  function InitialQuota(receiveMaximum: UInt16): (q: UInt16)
    ensures q >= 1
    ensures receiveMaximum >= 1 ==> q <= receiveMaximum
    ensures receiveMaximum == 0 ==> q == 0xFFFF
  {
    var m := (receiveMaximum - 1) % 0x1_0000;
    if m < 1 then 1 else m
  }

  // ------------------------------------------------- packet identifiers

  /**
   * The identifier `GetNextPacketID` as written tries for counter value `n`:
   * `n % UInt16.MaxValue`, with 0 moved to 1.
   */
  function CandidateAsWritten(n: nat): (id: UInt16)
    ensures 1 <= id < 0xFFFF
  {
    var r := n % 0xFFFF;
    if r == 0 then 1 else r
  }

  /**
   * Moving 0 to 1 makes 1 come twice in a row: the first two calls, and the
   * two calls at every wrap of the counter, try the same identifier.  A
   * packet whose identifier is not held in the unacknowledged or released
   * store (a SUBSCRIBE, or a PUBLISH still queued) is not in the way of the
   * second, which gets the same identifier.
   */
  lemma CandidateAsWrittenRepeats(k: nat)
    ensures CandidateAsWritten(k * 0xFFFF) == CandidateAsWritten(k * 0xFFFF + 1) == 1
  {
  }

  /** The identifier tried for counter value `n`: `n % 65534 + 1`, in `[1, 65534]`. */
  function Candidate(n: nat): (id: UInt16)
    ensures 1 <= id < 0xFFFF
  {
    n % 0xFFFE + 1
  }

  /** Fewer than 65534 consecutive counter values never try the same identifier twice. */
  lemma CandidatesDistinct(n: nat, d: nat)
    requires 0 < d < 0xFFFE
    ensures Candidate(n) != Candidate(n + d)
  {
  }

  /** How many counter steps from `n` on `Candidate` first gives `t`. */
  function Distance(t: int, n: nat): int
  {
    (t - 1 - n) % 0xFFFE
  }

  /** Every identifier in `[1, 65534]` comes round within 65534 counter values. */
  lemma CandidateReaches(t: UInt16, n: nat)
    requires 1 <= t < 0xFFFF
    ensures 0 <= Distance(t, n) < 0xFFFE
    ensures Candidate(n + Distance(t, n)) == t
  {
    var d := Distance(t, n);
    assert (n + d) % 0xFFFE == t - 1;
  }

  /** A counter value whose candidate is not `t` is one step nearer to it than the one before. */
  lemma DistanceStep(t: UInt16, n: nat)
    requires 1 <= t < 0xFFFF && Candidate(n) != t
    ensures Distance(t, n) > 0 && Distance(t, n + 1) == Distance(t, n) - 1
  {
    assert n % 0xFFFE != t - 1;
  }

  /**
   * The identifier `GetNextPacketID` hands out from counter value `n`,
   * trying at most `k` candidates, and the counter it leaves: the first
   * candidate no unacknowledged or released packet holds, the counter then
   * one past it; or none, the counter `k` further on.
   */
  function NextIdentifier(s: Session, n: nat, k: nat): (r: (Option<UInt16>, nat))
    ensures n <= r.1 <= n + k
    ensures r.0.Some? ==> n < r.1 && r.0.value == Candidate(r.1 - 1) && Free(s, r.0.value)
    ensures r.0.None? ==> r.1 == n + k
    decreases k
  {
    if k == 0 then (None, n)
    else if Free(s, Candidate(n)) then (Some(Candidate(n)), n + 1)
    else NextIdentifier(s, n + 1, k - 1)
  }

  /** Candidates in use are passed over: the search goes on from the first one not yet tried. */
  lemma {:induction false} NextIdentifierPasses(s: Session, n: nat, j: nat, k: nat)
    requires j <= k
    requires forall m :: n <= m < n + j ==> !Free(s, Candidate(m))
    ensures NextIdentifier(s, n, k) == NextIdentifier(s, n + j, k - j)
    decreases j
  {
    if j > 0 {
      assert !Free(s, Candidate(n));
      NextIdentifierPasses(s, n + 1, j - 1, k - 1);
    }
  }

  /** Every candidate `NextIdentifier` passes over is held by an unacknowledged or released packet. */
  lemma {:induction false} NextIdentifierSkips(s: Session, n: nat, k: nat)
    ensures var r := NextIdentifier(s, n, k);
            r.0.Some? ==> forall m :: n <= m < r.1 - 1 ==> !Free(s, Candidate(m))
    ensures NextIdentifier(s, n, k).0.None? ==> forall m :: n <= m < n + k ==> !Free(s, Candidate(m))
    decreases k
  {
    if k > 0 && !Free(s, Candidate(n)) {
      NextIdentifierSkips(s, n + 1, k - 1);
    }
  }

  /** Trying a full lap of 65534 candidates finds an identifier exactly when one is free. */
  lemma NextIdentifierLap(s: Session, n: nat)
    ensures NextIdentifier(s, n, 0xFFFE).0.None? <==> forall t: UInt16 :: 1 <= t < 0xFFFF ==> !Free(s, t)
  {
    NextIdentifierSkips(s, n, 0xFFFE);
    if NextIdentifier(s, n, 0xFFFE).0.None? {
      forall t: UInt16 | 1 <= t < 0xFFFF
        ensures !Free(s, t)
      {
        CandidateReaches(t, n);
        assert Candidate(n + Distance(t, n)) == t;
      }
    }
  }

  // ----------------------------------------------------------- packets

  /** A topic name as the publishing side of the client holds it: UTF-8 bytes. */
  type Topic = seq<Byte>

  /** A PUBLISH packet as the client keeps it: QoS, topic name, topic alias (0 when absent) and the DUP flag. */
  datatype Pub = Pub(qos: QoSLevel, topic: Topic, alias: UInt16, dup: bool)

  /** The packets the client sends, with the fields that tell them apart. */
  datatype OutPacket =
    | ConnectOut
    | PublishOut(id: UInt16, pub: Pub)
    | PubAckOut(id: UInt16)
    | PubRecOut(id: UInt16)
    | PubRelOut(id: UInt16, code: Byte)
    | PubCompOut(id: UInt16)
    | DisconnectOut(reason: Option<Byte>)

  /** Whether a flush writes a packet: a server maximum in `(0, UInt32.MaxValue)` skips bigger packets. */
  predicate Fits(p: OutPacket, max: UInt32, size: OutPacket -> nat)
  {
    !(0 < max < UInt32MaxValue) || size(p) <= max
  }

  /** The packets a flush writes, in order. */
  function Kept(ps: seq<OutPacket>, max: UInt32, size: OutPacket -> nat): (r: seq<OutPacket>)
    ensures |r| <= |ps|
    ensures forall p :: p in r <==> p in ps && Fits(p, max, size)
  {
    if ps == [] then []
    else (if Fits(ps[0], max, size) then [ps[0]] else []) + Kept(ps[1..], max, size)
  }

  /** Flushing twice writes what one flush of both parts writes. */
  lemma {:induction false} KeptAppend(a: seq<OutPacket>, b: seq<OutPacket>, max: UInt32, size: OutPacket -> nat)
    ensures Kept(a + b, max, size) == Kept(a, max, size) + Kept(b, max, size)
  {
    if a != [] {
      var head := if Fits(a[0], max, size) then [a[0]] else [];
      assert (a + b)[0] == a[0] && (a + b)[1..] == a[1..] + b;
      KeptAppend(a[1..], b, max, size);
      assert Kept(a + b, max, size) == head + Kept(a[1..] + b, max, size);
      assert Kept(a, max, size) == head + Kept(a[1..], max, size);
    } else {
      assert a + b == b;
    }
  }

  /** Without a usable server maximum every packet is written. */
  lemma {:induction false} KeptAll(ps: seq<OutPacket>, max: UInt32, size: OutPacket -> nat)
    requires max == 0 || max == UInt32MaxValue
    ensures Kept(ps, max, size) == ps
  {
    if ps != [] {
      KeptAll(ps[1..], max, size);
    }
  }

  /** The batches the transport is handed when every packet is flushed on its own: one per packet. */
  function Singles(ps: seq<OutPacket>, max: UInt32, size: OutPacket -> nat): (r: seq<seq<OutPacket>>)
    ensures |r| == |ps|
    ensures forall i :: 0 <= i < |ps| ==> r[i] == Kept([ps[i]], max, size)
  {
    if ps == [] then [] else [Kept([ps[0]], max, size)] + Singles(ps[1..], max, size)
  }

  // ------------------------------------------------------------ events

  /** An application message the packet reader made from a PUBLISH packet. */
  datatype AppMessage = AppMessage(subscriptionId: UInt32, qos: QoSLevel, packetId: UInt16, topic: string, topicAlias: UInt16)

  /** The callbacks the client invokes, in the order it invokes them. */
  datatype Event =
    | StateChanged(from: ClientState, to: ClientState)
    | DisconnectRaised(code: Byte)
    | ErrorRaised(code: Byte)
    | ConnectedRaised
    | ConnectAckRaised(code: Byte)
    | TopicMessage(subscriptionId: UInt32, filter: string, topic: string)
    | MessageRaised(message: AppMessage)
    | UnsubscribeAcked(filter: string, code: Byte)
    | TransportConnect
    | TransportDisconnect

  // ----------------------------------------------------------- session

  /** A client topic alias: its alias, its topic name, and whether the server has been told. */
  datatype AliasEntry = AliasEntry(alias: UInt16, topic: Topic, sent: bool)

  /**
   * `Session`: the queued and the unacknowledged PUBLISH packets in the
   * order they were added, the released and the received packet
   * identifiers, and the client's topic aliases in the order they were set.
   */
  datatype Session = Session(queued: seq<(UInt16, Pub)>, unacked: seq<(UInt16, Pub)>,
                             released: set<UInt16>, received: set<UInt16>, aliases: seq<AliasEntry>)

  function EmptySession(): Session
  {
    Session([], [], {}, {}, [])
  }

  /** An identifier neither unacknowledged nor released, which `GetNextPacketID` may hand out. */
  predicate Free(s: Session, id: UInt16)
  {
    id !in Ids(s.unacked) && id !in s.released
  }

  // ---------------------------------------------------- client aliases

  /** `Find(alias)`: the topic name of the alias; none for alias 0 or an unknown one. */
  function AliasTopic(es: seq<AliasEntry>, alias: UInt16): Option<Topic>
  {
    if alias == 0 || es == [] then None
    else if es[0].alias == alias then Some(es[0].topic)
    else AliasTopic(es[1..], alias)
  }

  /** `Find(topicName)`: the alias and sent flag of the first entry naming the topic, `(0, false)` for none. */
  function AliasFind(es: seq<AliasEntry>, topic: Topic): (r: (UInt16, bool))
    ensures r.0 != 0 ==> AliasTopic(es, r.0).Some?
  {
    if topic == [] || es == [] then (0, false)
    else if es[0].topic == topic then (es[0].alias, es[0].sent)
    else
      var r := AliasFind(es[1..], topic);
      assert r.0 != 0 ==> es[0].alias == r.0 || AliasTopic(es, r.0) == AliasTopic(es[1..], r.0);
      r
  }

  /** No alias other than 0 is on two entries, as in a mapping keyed by alias. */
  predicate DistinctAliases(es: seq<AliasEntry>)
  {
    es == [] || (AliasTopic(es[1..], es[0].alias).None? && DistinctAliases(es[1..]))
  }

  /** An entry whose alias the list does not have may be added at its end. */
  lemma {:induction false} DistinctAppend(es: seq<AliasEntry>, e: AliasEntry)
    requires DistinctAliases(es) && AliasTopic(es, e.alias).None?
    ensures DistinctAliases(es + [e])
  {
    if es != [] {
      assert (es + [e])[0] == es[0] && (es + [e])[1..] == es[1..] + [e];
      DistinctAppend(es[1..], e);
      AliasTopicAppend(es[1..], [e], es[0].alias);
    }
  }

  /** The entries without the alias. */
  function WithoutAlias(es: seq<AliasEntry>, alias: UInt16): (r: seq<AliasEntry>)
    ensures AliasTopic(r, alias).None?
    ensures forall a :: a != alias ==> AliasTopic(r, a) == AliasTopic(es, a)
    ensures DistinctAliases(es) ==> DistinctAliases(r)
  {
    if es == [] then []
    else if es[0].alias == alias then WithoutAlias(es[1..], alias)
    else
      var r := [es[0]] + WithoutAlias(es[1..], alias);
      assert r[1..] == WithoutAlias(es[1..], alias);
      r
  }

  /** `Set(alias, topicName)`: the alias now names the topic, not yet sent. */
  function AliasSet(es: seq<AliasEntry>, alias: UInt16, topic: Topic): (r: seq<AliasEntry>)
    ensures DistinctAliases(es) ==> DistinctAliases(r)
  {
    var w := WithoutAlias(es, alias);
    var e := AliasEntry(alias, topic, false);
    assert DistinctAliases(es) ==> DistinctAliases(w + [e]) by {
      if DistinctAliases(es) {
        DistinctAppend(w, e);
      }
    }
    w + [e]
  }

  /** A lookup past a list without the alias goes to what follows it. */
  lemma {:induction false} AliasTopicAppend(es: seq<AliasEntry>, fs: seq<AliasEntry>, alias: UInt16)
    ensures AliasTopic(es + fs, alias) == if AliasTopic(es, alias).Some? then AliasTopic(es, alias) else AliasTopic(fs, alias)
  {
    if alias != 0 && es != [] {
      assert (es + fs)[0] == es[0] && (es + fs)[1..] == es[1..] + fs;
      AliasTopicAppend(es[1..], fs, alias);
    } else if es == [] {
      assert es + fs == fs;
    }
  }

  /** After `Set` the alias names the new topic and every other alias keeps its topic. */
  lemma AliasSetNames(es: seq<AliasEntry>, alias: UInt16, topic: Topic)
    ensures alias != 0 ==> AliasTopic(AliasSet(es, alias, topic), alias) == Some(topic)
    ensures forall a :: a != alias ==> AliasTopic(AliasSet(es, alias, topic), a) == AliasTopic(es, a)
  {
    var w := WithoutAlias(es, alias);
    var e := [AliasEntry(alias, topic, false)];
    AliasTopicAppend(w, e, alias);
    forall a | a != alias
      ensures AliasTopic(w + e, a) == AliasTopic(es, a)
    {
      AliasTopicAppend(w, e, a);
    }
  }

  /** `SetSent(alias, true)`: the first entry of the alias is marked sent. */
  function MarkSent(es: seq<AliasEntry>, alias: UInt16): (r: seq<AliasEntry>)
    ensures |r| == |es|
    ensures forall a :: AliasTopic(r, a) == AliasTopic(es, a)
    ensures DistinctAliases(es) ==> DistinctAliases(r)
  {
    if es == [] then []
    else if es[0].alias == alias then [es[0].(sent := true)] + es[1..]
    else
      var r := [es[0]] + MarkSent(es[1..], alias);
      assert r[1..] == MarkSent(es[1..], alias);
      r
  }

  /**
   * The alias `Find(topicName)` answers is marked sent by `SetSent`: a
   * second lookup finds the same alias, now sent.
   */
  lemma {:induction false} MarkSentFound(es: seq<AliasEntry>, topic: Topic)
    requires DistinctAliases(es) && AliasFind(es, topic).0 != 0
    ensures AliasFind(MarkSent(es, AliasFind(es, topic).0), topic) == (AliasFind(es, topic).0, true)
  {
    var a := AliasFind(es, topic).0;
    if es[0].topic != topic {
      // the alias was found further on, so the first entry, whose alias is its own, is not it
      assert es[0].alias != a;
      MarkSentFound(es[1..], topic);
      assert MarkSent(es, a)[1..] == MarkSent(es[1..], a);
    }
  }

  /** The smallest alias in `[a, max]` no entry has, or 0 when every one is taken. */
  function FreeAlias(es: seq<AliasEntry>, a: nat, max: UInt16): (r: UInt16)
    requires a >= 1
    ensures r == 0 ==> forall b: UInt16 :: a <= b <= max ==> AliasTopic(es, b).Some?
    ensures (forall b: UInt16 :: a <= b <= max ==> AliasTopic(es, b).Some?) ==> r == 0
    ensures r != 0 ==> a <= r <= max && AliasTopic(es, r).None?
    ensures r != 0 ==> forall b: UInt16 :: a <= b < r ==> AliasTopic(es, b).Some?
    decreases max + 1 - a
  {
    if a > max then 0
    else if AliasTopic(es, a as UInt16).None? then
      var r := a as UInt16;
      assert !(forall b: UInt16 :: a <= b <= max ==> AliasTopic(es, b).Some?) by {
        assert a <= r <= max && AliasTopic(es, r).None?;
      }
      r
    else
      var r := FreeAlias(es, a + 1, max);
      assert AliasTopic(es, a as UInt16).Some?;
      r
  }

  // ------------------------------------------------------ Build checks

  /**
   * The same refusals, with an empty topic name allowed when a topic alias
   * stands for it (section 3.3.2.3.4 of MQTT 5.0).
   */
  function BuildRefusal(qos: QoSLevel, topic: Topic, alias: UInt16, server: ServerConnectAcks.ServerConnectAck): (r: Option<string>)
    ensures r.None? <==> qos <= server.maximumQoS && (topic != [] || alias != 0) && alias <= server.topicAliasMaximum
  {
    if qos > server.maximumQoS then Some("QoS above server maximum")
    else if topic == [] && alias == 0 then Some("empty topic name")
    else if alias > server.topicAliasMaximum then Some("topic alias above server maximum")
    else None
  }

  /**
   * The alias step of `BeginPublish` for a message without a topic alias
   * of its own: a known alias within the server's maximum is sent with the
   * topic name the first time and instead of it afterwards.  The answer is
   * the aliases, the topic name and the alias the packet is built with.
   */
  function AliasStep(es: seq<AliasEntry>, topic: Topic, max: UInt16): (seq<AliasEntry>, Topic, UInt16)
  {
    var (alias, sent) := AliasFind(es, topic);
    if alias > 0 && alias <= max then
      if !sent then (MarkSent(es, alias), topic, alias) else (es, [], alias)
    else (es, topic, 0)
  }

  /**
   * Publishing twice to a topic with an alias, as intended: the first
   * packet carries the name and the alias, the second only the alias.
   * `Build` as written would refuse the second for its empty topic name,
   * whatever its properties; with the empty name allowed beside an alias,
   * both are built.
   */
  lemma SecondAliasedPublishRefused(es: seq<AliasEntry>, topic: Topic, qos: QoSLevel, server: ServerConnectAcks.ServerConnectAck,
                                    ps: PacketData.Properties)
    requires DistinctAliases(es) && topic != [] && qos <= server.maximumQoS
    requires var (alias, sent) := AliasFind(es, topic); 0 < alias <= server.topicAliasMaximum && !sent
    ensures var first := AliasStep(es, topic, server.topicAliasMaximum);
            var second := AliasStep(first.0, topic, server.topicAliasMaximum);
            first.1 == topic && first.2 != 0 && second.1 == [] && second.2 == first.2
            && ApplicationMessages.BuildError(qos, Some(second.1), ps, server).Some?
            && BuildRefusal(qos, first.1, first.2, server).None?
            && BuildRefusal(qos, second.1, second.2, server).None?
  {
    MarkSentFound(es, topic);
  }

  // --------------------------------------------------------- replenish

  /** What the replenish loop leaves: the quota, the packets still queued, and the packets it sent. */
  datatype Replenished = Replenished(quota: UInt16, rest: seq<(UInt16, Pub)>, sent: seq<(UInt16, Pub)>)

  /**
   * The replenish loop from `quota`: while there is quota, the first queued
   * packet leaves the queue and is sent, using one unit of quota, unless its
   * identifier is 0, when it is dropped.
   */
  function Replenish(quota: UInt16, q: seq<(UInt16, Pub)>): Replenished
    decreases |q|
  {
    if quota == 0 || q == [] then Replenished(quota, q, [])
    else if q[0].0 == 0 then Replenish(quota, q[1..])
    else
      var r := Replenish(quota - 1, q[1..]);
      r.(sent := [q[0]] + r.sent)
  }

  /** The queued packets with identifier other than 0, in order. */
  function NonZero(q: seq<(UInt16, Pub)>): seq<(UInt16, Pub)>
  {
    if q == [] then [] else (if q[0].0 == 0 then [] else [q[0]]) + NonZero(q[1..])
  }

  /**
   * The loop stops with no quota or an empty queue; it has taken a prefix of
   * the queue, sent its packets with a nonzero identifier, in order, and
   * spent one unit of quota for each.
   */
  lemma {:induction false} ReplenishTakesPrefix(quota: UInt16, q: seq<(UInt16, Pub)>)
    ensures var r := Replenish(quota, q);
            (r.quota == 0 || r.rest == []) && r.quota <= quota
            && (exists k :: 0 <= k <= |q| && r.rest == q[k..] && r.sent == NonZero(q[..k]))
            && |r.sent| == quota - r.quota
  {
    var r := Replenish(quota, q);
    if quota == 0 || q == [] {
      assert r.rest == q[0..] && r.sent == NonZero(q[..0]);
    } else {
      var r' := Replenish(if q[0].0 == 0 then quota else quota - 1, q[1..]);
      ReplenishTakesPrefix(if q[0].0 == 0 then quota else quota - 1, q[1..]);
      var k :| 0 <= k <= |q[1..]| && r'.rest == q[1..][k..] && r'.sent == NonZero(q[1..][..k]);
      assert q[..k + 1][1..] == q[1..][..k];
      assert r.rest == q[k + 1..];
      assert r.sent == NonZero(q[..k + 1]);
    }
  }

  // ----------------------------------------------------------- publish

  /** The topic name a message is delivered under: the alias's name when the message carries an alias and no name. */
  function ResolvedTopic(m: AppMessage, aliases: map<UInt16, string>): string
  {
    if m.topicAlias > 0 && m.topic == [] then
      if m.topicAlias in aliases then aliases[m.topicAlias] else []
    else m.topic
  }

  /** The server's aliases after a message: an alias with a name sets the mapping. */
  function AliasesAfter(m: AppMessage, aliases: map<UInt16, string>): map<UInt16, string>
  {
    if m.topicAlias > 0 && m.topic != [] then aliases[m.topicAlias := m.topic] else aliases
  }

  /** The topic callbacks of the filters that select `topic`, in order. */
  function MatchingDeliveries(id: UInt32, fs: seq<Subscriptions.TopicFilter>, topic: string): seq<Event>
    requires topic != []
  {
    if fs == [] then []
    else (if Subscriptions.Matches(fs[0].filter, topic) then [TopicMessage(id, fs[0].filter, topic)] else [])
         + MatchingDeliveries(id, fs[1..], topic)
  }

  /**
   * The topic callbacks a message reaches through its subscription: none
   * for an unknown subscription or one without topics, the only topic's
   * whatever the name, and otherwise those of the matching filters.  The
   * filter check throws on an empty name, which ends the handler: `None`.
   */
  function Deliveries(m: AppMessage, topic: string, subs: map<UInt32, seq<Subscriptions.TopicFilter>>): Option<seq<Event>>
  {
    if m.subscriptionId !in subs then Some([])
    else
      var fs := subs[m.subscriptionId];
      if |fs| == 0 then Some([])
      else if |fs| == 1 then Some([TopicMessage(m.subscriptionId, fs[0].filter, topic)])
      else if topic == [] then None
      else Some(MatchingDeliveries(m.subscriptionId, fs, topic))
  }

  /** A QoS 2 message whose identifier is still received: a duplicate [MQTT-4.3.3-10]. */
  predicate Duplicate(m: AppMessage, received: set<UInt16>)
  {
    m.qos == ExactlyOnceDelivery && m.packetId in received
  }

  /** What the delivery loop leaves: the server's aliases, the callbacks it made, and whether it ran to its end. */
  datatype Dispatched = Dispatched(aliases: map<UInt16, string>, events: seq<Event>, completed: bool)

  /**
   * The delivery loop of the PUBLISH handler: each message in turn, until
   * a duplicate, sets or resolves its alias, reaches its topic callbacks and
   * then the application's message callback.
   */
  function DispatchAll(msgs: seq<AppMessage>, received: set<UInt16>, subs: map<UInt32, seq<Subscriptions.TopicFilter>>,
                       aliases: map<UInt16, string>): Dispatched
  {
    if msgs == [] || Duplicate(msgs[0], received) then Dispatched(aliases, [], true)
    else
      var m := msgs[0];
      var a := AliasesAfter(m, aliases);
      match Deliveries(m, ResolvedTopic(m, aliases), subs)
      case None => Dispatched(a, [], false)
      case Some(evs) =>
        var r := DispatchAll(msgs[1..], received, subs, a);
        r.(events := evs + [MessageRaised(m)] + r.events)
  }

  /** How many messages come before the first duplicate. */
  function FirstDuplicate(msgs: seq<AppMessage>, received: set<UInt16>): (k: nat)
    ensures k <= |msgs|
    ensures forall i :: 0 <= i < k ==> !Duplicate(msgs[i], received)
    ensures k < |msgs| ==> Duplicate(msgs[k], received)
  {
    if msgs == [] || Duplicate(msgs[0], received) then 0 else 1 + FirstDuplicate(msgs[1..], received)
  }

  /** The application messages among the callbacks, in order. */
  function Raised(evs: seq<Event>): seq<AppMessage>
  {
    if evs == [] then [] else (if evs[0].MessageRaised? then [evs[0].message] else []) + Raised(evs[1..])
  }

  lemma {:induction false} RaisedAppend(a: seq<Event>, b: seq<Event>)
    ensures Raised(a + b) == Raised(a) + Raised(b)
  {
    if a != [] {
      assert (a + b)[0] == a[0] && (a + b)[1..] == a[1..] + b;
      RaisedAppend(a[1..], b);
    } else {
      assert a + b == b;
    }
  }

  lemma {:induction false} NoneRaisedMatching(id: UInt32, fs: seq<Subscriptions.TopicFilter>, topic: string)
    requires topic != []
    ensures Raised(MatchingDeliveries(id, fs, topic)) == []
  {
    if fs != [] {
      var head := if Subscriptions.Matches(fs[0].filter, topic) then [TopicMessage(id, fs[0].filter, topic)] else [];
      RaisedAppend(head, MatchingDeliveries(id, fs[1..], topic));
      NoneRaisedMatching(id, fs[1..], topic);
    }
  }

  /** The topic callbacks of a message raise no application message. */
  lemma DeliveriesRaiseNothing(m: AppMessage, topic: string, subs: map<UInt32, seq<Subscriptions.TopicFilter>>)
    requires Deliveries(m, topic, subs).Some?
    ensures Raised(Deliveries(m, topic, subs).value) == []
  {
    if m.subscriptionId in subs && |subs[m.subscriptionId]| > 1 {
      NoneRaisedMatching(m.subscriptionId, subs[m.subscriptionId], topic);
    }
  }

  /**
   * A delivery loop that runs to its end raises the application message
   * callback once for every message before the first duplicate, in order,
   * and for none after it [MQTT-4.3.3-10].
   */
  lemma {:induction false} DispatchRaisesUpToDuplicate(msgs: seq<AppMessage>, received: set<UInt16>,
                                                      subs: map<UInt32, seq<Subscriptions.TopicFilter>>,
                                                      aliases: map<UInt16, string>)
    requires DispatchAll(msgs, received, subs, aliases).completed
    ensures Raised(DispatchAll(msgs, received, subs, aliases).events) == msgs[..FirstDuplicate(msgs, received)]
  {
    if msgs != [] && !Duplicate(msgs[0], received) {
      var m := msgs[0];
      var a := AliasesAfter(m, aliases);
      var evs := Deliveries(m, ResolvedTopic(m, aliases), subs).value;
      var r := DispatchAll(msgs[1..], received, subs, a);
      DispatchRaisesUpToDuplicate(msgs[1..], received, subs, a);
      DeliveriesRaiseNothing(m, ResolvedTopic(m, aliases), subs);
      RaisedStep(evs, m, r.events);
      FirstDuplicateStep(msgs, received);
    }
  }

  /** One message's callbacks followed by the rest raise the message, then what the rest raises. */
  lemma RaisedStep(evs: seq<Event>, m: AppMessage, rest: seq<Event>)
    requires Raised(evs) == []
    ensures Raised(evs + [MessageRaised(m)] + rest) == [m] + Raised(rest)
  {
    assert Raised([MessageRaised(m)]) == [m];
    RaisedAppend(evs, [MessageRaised(m)]);
    RaisedAppend(evs + [MessageRaised(m)], rest);
  }

  /** The messages before the first duplicate are the first message and those of the rest. */
  lemma FirstDuplicateStep(msgs: seq<AppMessage>, received: set<UInt16>)
    requires msgs != [] && !Duplicate(msgs[0], received)
    ensures msgs[..FirstDuplicate(msgs, received)] == [msgs[0]] + msgs[1..][..FirstDuplicate(msgs[1..], received)]
  {
  }

  // ------------------------------------------------------- unsubscribe

  /** Whether taking `f` out of a subscription's topics empties it. */
  predicate Emptied(ts: seq<Subscriptions.TopicFilter>, f: string)
  {
    (exists i :: 0 <= i < |ts| && ts[i].filter == f) && Subscriptions.RemoveFirstFilter(ts, f) == []
  }

  /**
   * The subscriptions after an unsubscribed filter: each loses its first
   * topic with the filter, and those it empties are removed.
   */
  function Unsubscribed(subs: map<UInt32, seq<Subscriptions.TopicFilter>>, f: string): map<UInt32, seq<Subscriptions.TopicFilter>>
  {
    map k | k in subs && !Emptied(subs[k], f) :: Subscriptions.RemoveFirstFilter(subs[k], f)
  }

  /**
   * A subscription is removed exactly when the filter was its only topic;
   * one that does not hold the filter keeps all of its topics.
   */
  lemma UnsubscribedRemovesOnlyTopic(subs: map<UInt32, seq<Subscriptions.TopicFilter>>, f: string, k: UInt32)
    requires k in subs
    ensures k !in Unsubscribed(subs, f) <==> |subs[k]| == 1 && subs[k][0].filter == f
    ensures (forall i :: 0 <= i < |subs[k]| ==> subs[k][i].filter != f) ==> Unsubscribed(subs, f)[k] == subs[k]
  {
    var ts := subs[k];
    if exists i :: 0 <= i < |ts| && ts[i].filter == f {
      var i :| 0 <= i < |ts| && ts[i].filter == f;
      assert |Subscriptions.RemoveFirstFilter(ts, f)| == |ts| - 1;
      if |ts| == 1 {
        assert ts[0].filter == f;
      }
    } else {
      Subscriptions.RemoveFirstFilterAbsent(ts, f);
    }
  }

  /** The subscriptions after each filter in turn has been unsubscribed. */
  function UnsubscribedAll(subs: map<UInt32, seq<Subscriptions.TopicFilter>>, fs: seq<string>): map<UInt32, seq<Subscriptions.TopicFilter>>
  {
    if fs == [] then subs else Unsubscribed(UnsubscribedAll(subs, fs[..|fs| - 1]), fs[|fs| - 1])
  }

  /**
   * The reason code an UNSUBACK payload answers at position `i`.  A payload
   * of one field or none keeps no list, so its indexer answers that single
   * field, or an unset one reading 0, whatever the position; a longer
   * payload answers its own field.
   */
  function CodeAt(codes: seq<Byte>, i: nat): (c: Byte)
    requires |codes| <= 1 || i < |codes|
    ensures codes == [] ==> c == 0
    ensures |codes| == 1 ==> c == codes[0]
    ensures i < |codes| ==> c == codes[i]
  {
    if codes == [] then 0 else if |codes| == 1 then codes[0] else codes[i]
  }

  /**
   * How many of `nf` filters the UNSUBACK loop handles: every one when the
   * payload holds one code or none, otherwise those with a code, since the
   * lookup past the last code throws out of the loop.
   */
  function AckedCount(nf: nat, codes: seq<Byte>): (n: nat)
    ensures n <= nf
    ensures |codes| <= 1 ==> n == nf
    ensures |codes| > 1 ==> n == (if nf <= |codes| then nf else |codes|)
    ensures |codes| <= 1 || n <= |codes|
  {
    if |codes| <= 1 || nf <= |codes| then nf else |codes|
  }

  /** The acknowledgement callbacks of the filters, each with the code the payload answers at its position. */
  function AckEvents(fs: seq<string>, codes: seq<Byte>): (r: seq<Event>)
    requires |codes| <= 1 || |fs| <= |codes|
    ensures |r| == |fs|
    ensures forall i :: 0 <= i < |fs| ==> r[i] == UnsubscribeAcked(fs[i], CodeAt(codes, i))
  {
    seq(|fs|, i requires 0 <= i < |fs| => UnsubscribeAcked(fs[i], CodeAt(codes, i)))
  }

  /**
   * An UNSUBACK without codes, as every MQTT 3.1.1 server sends, reports
   * every filter with code 0 (Success); one with a single code reports that
   * code for every filter.
   */
  lemma AckEventsShortPayload(fs: seq<string>, codes: seq<Byte>)
    requires |codes| <= 1
    ensures AckedCount(|fs|, codes) == |fs|
    ensures var acks := AckEvents(fs, codes);
            forall i :: 0 <= i < |fs| ==> acks[i] == UnsubscribeAcked(fs[i], if codes == [] then 0 else codes[0])
  {
  }

  /**
   * Unsubscribing never adds a subscription, and one holding none of the
   * filters is left as it was.
   */
  lemma {:induction false} UnsubscribedAllKeeps(subs: map<UInt32, seq<Subscriptions.TopicFilter>>, fs: seq<string>)
    ensures UnsubscribedAll(subs, fs).Keys <= subs.Keys
    ensures forall k :: k in subs && (forall i, j :: 0 <= i < |subs[k]| && 0 <= j < |fs| ==> subs[k][i].filter != fs[j])
                        ==> k in UnsubscribedAll(subs, fs) && UnsubscribedAll(subs, fs)[k] == subs[k]
  {
    if fs != [] {
      var init := fs[..|fs| - 1];
      UnsubscribedAllKeeps(subs, init);
      var before := UnsubscribedAll(subs, init);
      forall k | k in subs && (forall i, j :: 0 <= i < |subs[k]| && 0 <= j < |fs| ==> subs[k][i].filter != fs[j])
        ensures k in UnsubscribedAll(subs, fs) && UnsubscribedAll(subs, fs)[k] == subs[k]
      {
        assert forall i, j :: 0 <= i < |subs[k]| && 0 <= j < |init| ==> subs[k][i].filter != init[j] by {
          forall i, j | 0 <= i < |subs[k]| && 0 <= j < |init|
            ensures subs[k][i].filter != init[j]
          {
            assert init[j] == fs[j];
          }
        }
        assert before[k] == subs[k];
        UnsubscribedRemovesOnlyTopic(before, fs[|fs| - 1], k);
      }
    }
  }

  // ------------------------------------------------------------- retry

  /** The smallest member of `s` in `[c, 65534]`. */
  function NextFrom(s: set<int>, c: nat): (r: Option<UInt16>)
    ensures r.Some? ==> c <= r.value < 0xFFFF && r.value in s
    decreases 0xFFFF - c
  {
    if c >= 0xFFFF then None
    else if c in s then Some(c as UInt16)
    else NextFrom(s, c + 1)
  }

  /** The members of `s` in `[c, 65534]`, in ascending order. */
  function AscendingFrom(s: set<int>, c: nat): seq<int>
    decreases 0xFFFF - c
  {
    if c >= 0xFFFF then []
    else (if c in s then [c] else []) + AscendingFrom(s, c + 1)
  }

  /** The ascending listing goes from one answer of `NextFrom` to the next. */
  lemma {:induction false} AscendingNext(s: set<int>, c: nat)
    ensures AscendingFrom(s, c) == match NextFrom(s, c)
                                   case None => []
                                   case Some(n) => [n as int] + AscendingFrom(s, n + 1)
    decreases 0xFFFF - c
  {
    if c < 0xFFFF && c !in s {
      AscendingNext(s, c + 1);
    }
  }

  /** The listing holds exactly the members in `[c, 65534]`, in strictly ascending order. */
  lemma {:induction false} AscendingMembers(s: set<int>, c: nat)
    ensures forall x :: x in AscendingFrom(s, c) <==> x in s && c <= x < 0xFFFF
    ensures forall i, j :: 0 <= i < j < |AscendingFrom(s, c)| ==> AscendingFrom(s, c)[i] < AscendingFrom(s, c)[j]
  {
    AscendingIn(s, c);
    AscendingSorted(s, c);
  }

  /** The ascending listing holds exactly the members of `s` from `c` below 0xFFFF. */
  lemma {:induction false} AscendingIn(s: set<int>, c: nat)
    ensures forall x :: x in AscendingFrom(s, c) <==> x in s && c <= x < 0xFFFF
    decreases 0xFFFF - c
  {
    if c < 0xFFFF {
      AscendingIn(s, c + 1);
      assert AscendingFrom(s, c) == (if c in s then [c] else []) + AscendingFrom(s, c + 1);
    }
  }

  /** The ascending listing is strictly increasing. */
  lemma {:induction false} AscendingSorted(s: set<int>, c: nat)
    ensures forall i, j :: 0 <= i < j < |AscendingFrom(s, c)| ==> AscendingFrom(s, c)[i] < AscendingFrom(s, c)[j]
    decreases 0xFFFF - c
  {
    if c < 0xFFFF {
      AscendingSorted(s, c + 1);
      var rest := AscendingFrom(s, c + 1);
      if c in s {
        AscendingIn(s, c + 1);
        var l := AscendingFrom(s, c);
        assert l == [c] + rest;
        forall i, j | 0 <= i < j < |l|
          ensures l[i] < l[j]
        {
          if i == 0 {
            assert l[j] == rest[j - 1] && rest[j - 1] in rest;
          } else {
            assert l[i] == rest[i - 1] && l[j] == rest[j - 1];
          }
        }
      }
    }
  }

  /**
   * `NextFrom(s, v + 1)` answers what `UInt16Database.GetNext(v)` answers
   * over the same values.
   */
  lemma {:induction false} NextFromIsNext(s: set<int>, v: UInt16)
    ensures var n := NextFrom(s, v + 1);
            UInt16Databases.IsNextOf(s, v, n.Some?, if n.Some? then n.value else 0)
  {
    var n := NextFrom(s, v + 1);
    AscendingNext(s, v + 1);
    AscendingMembers(s, v + 1);
    var above := set x | x in s && v < x < 0xFFFF;
    if n.Some? {
      assert n.value in above;
      forall x | x in above
        ensures n.value <= x
      {
        assert x in AscendingFrom(s, v + 1);
        assert AscendingFrom(s, v + 1)[0] == n.value;
        var i :| 0 <= i < |AscendingFrom(s, v + 1)| && AscendingFrom(s, v + 1)[i] == x;
      }
    } else {
      assert AscendingFrom(s, v + 1) == [];
      assert above == {};
    }
  }

  /** A packet as the retry resends it: the DUP flag set and a topic alias replaced by its topic name. */
  function Resent(p: Pub, aliases: seq<AliasEntry>): Pub
  {
    var named := if p.alias != 0 then
                   p.(topic := match AliasTopic(aliases, p.alias) case Some(t) => t case None => [], alias := 0)
                 else p;
    named.(dup := true)
  }

  /** The PUBLISH packets the retry resends for the given records. */
  function Resends(q: seq<(UInt16, Pub)>, aliases: seq<AliasEntry>): (r: seq<OutPacket>)
    ensures |r| == |q|
    ensures forall i :: 0 <= i < |q| ==> r[i] == PublishOut(q[i].0, Resent(q[i].1, aliases))
  {
    if q == [] then [] else [PublishOut(q[0].0, Resent(q[0].1, aliases))] + Resends(q[1..], aliases)
  }

  /** The PUBREL packets, with reason Success, for the identifiers. */
  function Releases(ids: seq<int>): (r: seq<OutPacket>)
    requires forall x :: x in ids ==> 0 <= x < 0x1_0000
    ensures |r| == |ids|
    ensures forall i :: 0 <= i < |ids| ==> ids[i] in ids && r[i] == PubRelOut(ids[i], Success)
    ensures forall x: UInt16 :: PubRelOut(x, Success) in r <==> x in ids
  {
    if ids == [] then []
    else
      assert ids[0] in ids && forall x :: x in ids[1..] ==> x in ids;
      [PubRelOut(ids[0], Success)] + Releases(ids[1..])
  }

  /** The released identifiers the retry sends PUBREL for, in the order it sends them. */
  function ReleasedOrder(released: set<int>): (ids: seq<int>)
    ensures forall x :: x in ids <==> x in released && 1 <= x < 0xFFFF
    ensures forall i, j :: 0 <= i < j < |ids| ==> ids[i] < ids[j]
  {
    AscendingMembers(released, 1);
    AscendingFrom(released, 1)
  }

  /** How many PUBLISH packets a retry with `quota` resends out of `n`. */
  function Spent(quota: UInt16, n: nat): nat
  {
    if quota < n then quota else n
  }

  /**
   * `MessageDeliveryRetry`: the unacknowledged packets, in the order they
   * were first sent and as far as the quota goes, each with its DUP flag
   * set; then a PUBREL for every released identifier.
   */
  function Retry(quota: UInt16, s: Session): seq<OutPacket>
  {
    Resends(s.unacked[..Spent(quota, |s.unacked|)], s.aliases) + Releases(ReleasedOrder(s.released))
  }

  /**
   * With quota for all of them, every unacknowledged packet is resent, in
   * order, and every released identifier gets its PUBREL [MQTT-4.4.0-1].
   */
  lemma RetryResendsAll(quota: UInt16, s: Session)
    requires quota >= |s.unacked|
    ensures var r := Retry(quota, s);
            |r| == |s.unacked| + |ReleasedOrder(s.released)|
            && (forall i :: 0 <= i < |s.unacked| ==> r[i] == PublishOut(s.unacked[i].0, Resent(s.unacked[i].1, s.aliases)))
            && forall id :: id in s.released && 1 <= id < 0xFFFF ==> PubRelOut(id, Success) in r
  {
    RetryResendsPrefix(quota, s);
    RetryReleasesAll(quota, s);
  }

  /**
   * Whatever the quota: the retry's first packets are the first `Spent`
   * unacknowledged ones, in the order they were first sent, each resent;
   * every packet after them is a PUBREL, so the unacknowledged packets past
   * the quota are not resent.
   */
  lemma RetryResendsPrefix(quota: UInt16, s: Session)
    ensures var r := Retry(quota, s);
            var k := Spent(quota, |s.unacked|);
            k == (if quota < |s.unacked| then quota as int else |s.unacked|)
            && |r| == k + |ReleasedOrder(s.released)|
            && (forall i :: 0 <= i < k ==> r[i] == PublishOut(s.unacked[i].0, Resent(s.unacked[i].1, s.aliases)))
            && (forall i :: k <= i < |r| ==> r[i].PubRelOut?)
  {
    ResendsThenReleases(s.unacked, Spent(quota, |s.unacked|), s.aliases, ReleasedOrder(s.released));
  }

  /** PUBLISH resends of the first `k` packets followed by PUBREL packets, index by index. */
  lemma ResendsThenReleases(q: seq<(UInt16, Pub)>, k: nat, aliases: seq<AliasEntry>, ids: seq<int>)
    requires k <= |q|
    requires forall x :: x in ids ==> 0 <= x < 0x1_0000
    ensures var r := Resends(q[..k], aliases) + Releases(ids);
            |r| == k + |ids|
            && (forall i :: 0 <= i < k ==> r[i] == PublishOut(q[i].0, Resent(q[i].1, aliases)))
            && (forall i :: k <= i < |r| ==> r[i].PubRelOut?)
  {
    var rel := Releases(ids);
    assert forall i :: 0 <= i < |rel| ==> rel[i].PubRelOut?;
    ResendsThenPubRels(q, k, aliases, rel);
  }

  /** The same for any packets that are all PUBREL. */
  lemma ResendsThenPubRels(q: seq<(UInt16, Pub)>, k: nat, aliases: seq<AliasEntry>, rel: seq<OutPacket>)
    requires k <= |q|
    requires forall i :: 0 <= i < |rel| ==> rel[i].PubRelOut?
    ensures var r := Resends(q[..k], aliases) + rel;
            |r| == k + |rel|
            && (forall i :: 0 <= i < k ==> r[i] == PublishOut(q[i].0, Resent(q[i].1, aliases)))
            && (forall i :: k <= i < |r| ==> r[i].PubRelOut?)
  {
    var pubs := Resends(q[..k], aliases);
    forall i | 0 <= i < k
      ensures (pubs + rel)[i] == PublishOut(q[i].0, Resent(q[i].1, aliases))
    {
      assert q[..k][i] == q[i];
    }
  }

  /** Whatever the quota: the retry sends a PUBREL with Success for exactly the released identifiers. */
  lemma RetryReleasesAll(quota: UInt16, s: Session)
    ensures forall id: UInt16 :: PubRelOut(id, Success) in Retry(quota, s) <==> id in s.released && 1 <= id < 0xFFFF
  {
    var pubs := Resends(s.unacked[..Spent(quota, |s.unacked|)], s.aliases);
    var rel := Releases(ReleasedOrder(s.released));
    ResendsPublishOnly(s.unacked[..Spent(quota, |s.unacked|)], s.aliases);
    assert forall id: UInt16 :: PubRelOut(id, Success) in pubs + rel <==> PubRelOut(id, Success) in rel;
  }

  /** Resending sends PUBLISH packets only. */
  lemma {:induction false} ResendsPublishOnly(q: seq<(UInt16, Pub)>, aliases: seq<AliasEntry>)
    ensures forall p :: p in Resends(q, aliases) ==> p.PublishOut?
  {
    if q != [] {
      ResendsPublishOnly(q[1..], aliases);
    }
  }

  /**
   * The PUBLISH half of `MessageDeliveryRetry` as written: `GetNext(0)`,
   * then `GetNext` of each identifier sent, where `GetNext(id)` is the
   * first record in order whose identifier is above `id`.
   */
  function RetryChainAsWritten(q: seq<(UInt16, Pub)>, last: UInt16): seq<(UInt16, Pub)>
    decreases 0x1_0000 - last
  {
    match FirstAbove(q, last)
    case None => []
    case Some(e) => [e] + RetryChainAsWritten(q, e.0)
  }

  /**
   * `MessageDeliveryRetry` as written: nothing when the quota is 0; the
   * chain of packets as far as the quota goes, returning as soon as the
   * quota reaches 0; the PUBREL pass only when the chain ended first.
   */
  function RetryAsWritten(quota: UInt16, s: Session): seq<OutPacket>
  {
    if quota == 0 then []
    else
      var chain := RetryChainAsWritten(s.unacked, 0);
      if |chain| >= quota then Resends(chain[..quota], s.aliases)
      else Resends(chain, s.aliases) + Releases(ReleasedOrder(s.released))
  }

  /** The chain as written over packets 5 and 3, in that order, holds 5 only. */
  lemma ChainStopsAtHigher(p: Pub)
    ensures RetryChainAsWritten([(5, p), (3, p)], 0) == [(5, p)]
  {
    var q: seq<(UInt16, Pub)> := [(5, p), (3, p)];
    assert FirstAboveIndex(q, 0) == 0;
    assert FirstAbove(q, 0) == Some((5, p));
    assert FirstAboveIndex(q[2..], 5) == 0;
    assert FirstAboveIndex(q[1..], 5) == 1;
    assert FirstAboveIndex(q, 5) == 2;
    assert RetryChainAsWritten(q, 5) == [];
  }

  /**
   * Packet 5 sent before packet 3 (identifiers wrap, or a new client starts
   * counting from 1 again over a stored session): with quota for both, the
   * retry as written resends 5 only, and never 3.
   */
  lemma RetrySkipsLowerIdentifier(p: Pub, released: set<UInt16>, aliases: seq<AliasEntry>)
    ensures RetryAsWritten(2, Session([], [(5, p), (3, p)], released, {}, aliases))
            == [PublishOut(5, Resent(p, aliases))] + Releases(ReleasedOrder(released))
  {
    ChainStopsAtHigher(p);
  }

  /** The same two packets and quota: the retry resends both, 5 then 3. */
  lemma RetryKeepsLowerIdentifier(p: Pub, released: set<UInt16>, aliases: seq<AliasEntry>)
    ensures Retry(2, Session([], [(5, p), (3, p)], released, {}, aliases))
            == [PublishOut(5, Resent(p, aliases)), PublishOut(3, Resent(p, aliases))] + Releases(ReleasedOrder(released))
  {
    var q: seq<(UInt16, Pub)> := [(5, p), (3, p)];
    assert q[..Spent(2, 2)] == q;
  }

  /**
   * One unacknowledged packet, quota 1 and a released identifier: the
   * quota reaches 0 with the packet, so the retry as written returns
   * before the PUBREL pass and the release is never sent again.
   */
  lemma RetrySkipsRelease(p: Pub, id: UInt16, released: set<UInt16>, aliases: seq<AliasEntry>)
    requires id in released && 1 <= id < 0xFFFF
    ensures var s := Session([], [(5, p)], released, {}, aliases);
            RetryAsWritten(1, s) == [PublishOut(5, Resent(p, aliases))]
            && PubRelOut(id, Success) in Retry(1, s)
  {
    var q: seq<(UInt16, Pub)> := [(5, p)];
    assert FirstAboveIndex(q, 0) == 0;
    assert RetryChainAsWritten(q, 0) == [(5, p)] + RetryChainAsWritten(q, 5);
    RetryResendsAll(1, Session([], q, released, {}, aliases));
  }
}
