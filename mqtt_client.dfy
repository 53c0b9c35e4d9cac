/**
 * `MQTTClient`: the client's state machine, its send quota, the buffered
 * sending of packets, the handlers of the packets the broker sends, and the
 * publishing side of the public interface.  The client updates its fields in
 * place, so it is a class; the session it keeps is held as its content
 * (the `Session` value), and the callbacks it invokes are recorded, in
 * order, in `events`.
 */
module MQTTClients {
  import opened Bytes
  import opened Packets
  import opened OutgoingPacketDatabases
  import opened ClientModels
  import Subscriptions
  import ServerConnectAcks
  import SortedEntries

  /** The server options before any CONNACK: the default of the C# struct, with every field zero. */
  function NoServerOptions(): ServerConnectAcks.ServerConnectAck
  {
    ServerConnectAcks.ServerConnectAck(false, 0, None, 0, 0, false, 0, None, 0, None, None,
                                       false, false, false, None, None, None, None, [])
  }

  /** `SetDisconnected`'s callbacks: nothing once disconnected, otherwise the state change and `OnDisconnect`. */
  function DisconnectEvents(from: ClientState, code: Byte): seq<Event>
  {
    if from == Disconnected then [] else [StateChanged(from, Disconnected), DisconnectRaised(code)]
  }

  /** `Error`'s callbacks: `OnError`, the transport's disconnect when there is a transport, then `SetDisconnected`'s. */
  function ErrorEvents(from: ClientState, code: Byte): seq<Event>
  {
    [ErrorRaised(code)] + (if from != Initial then [TransportDisconnect] else []) + DisconnectEvents(from, code)
  }

  /** Whether `BeginDisconnect` acts: only from `TransportConnecting` to `Connected`. */
  predicate Disconnectable(s: ClientState)
  {
    1 <= Rank(s) <= 3
  }

  /** The state `BeginDisconnect` leaves. */
  function AfterBeginDisconnect(from: ClientState, quitting: bool): ClientState
  {
    if !Disconnectable(from) then from else if quitting then Disconnected else Disconnecting
  }

  /** `BeginDisconnect`'s callbacks and transport calls. */
  function BeginDisconnectEvents(from: ClientState, quitting: bool): seq<Event>
  {
    if !Disconnectable(from) then []
    else [StateChanged(from, Disconnecting), TransportDisconnect]
         + (if quitting then DisconnectEvents(Disconnecting, NormalDisconnection) else [])
  }

  /** The DISCONNECT packet `BeginDisconnect` sends: one only when connected, with a reason code only for MQTT 5. */
  function DisconnectPackets(from: ClientState, isV5: bool, reason: Byte): seq<OutPacket>
  {
    if from == Connected then [DisconnectOut(if isV5 then Some(reason) else None)] else []
  }

  /** The PUBLISH packets for the records, as first sent. */
  function Publishes(q: seq<(UInt16, Pub)>): (r: seq<OutPacket>)
    ensures |r| == |q|
    ensures forall i :: 0 <= i < |q| ==> r[i] == PublishOut(q[i].0, q[i].1)
  {
    if q == [] then [] else [PublishOut(q[0].0, q[0].1)] + Publishes(q[1..])
  }

  /** The PUBLISH packets of the records and one more. */
  lemma PublishesAppend(q: seq<(UInt16, Pub)>, e: (UInt16, Pub))
    ensures Publishes(q + [e]) == Publishes(q) + [PublishOut(e.0, e.1)]
  {
  }

  /** The replenish loop part-way: `sent` has been sent, and the rest of the loop would finish as `r0`. */
  predicate Replenishing(quota: UInt16, q: seq<(UInt16, Pub)>, sent: seq<(UInt16, Pub)>, r0: Replenished)
  {
    var r := Replenish(quota, q);
    r.quota == r0.quota && r.rest == r0.rest && sent + r.sent == r0.sent
  }

  /** One turn of the replenish loop: a packet with identifier 0 is dropped, any other is sent for one unit of quota. */
  lemma ReplenishingStep(quota: UInt16, q: seq<(UInt16, Pub)>, sent: seq<(UInt16, Pub)>, r0: Replenished)
    requires quota > 0 && q != [] && Replenishing(quota, q, sent, r0)
    ensures q[0].0 == 0 ==> Replenishing(quota, q[1..], sent, r0)
    ensures q[0].0 != 0 ==> Replenishing(quota - 1, q[1..], sent + [q[0]], r0)
  {
    if q[0].0 != 0 {
      var rest := Replenish(quota - 1, q[1..]);
      assert sent + ([q[0]] + rest.sent) == (sent + [q[0]]) + rest.sent;
    }
  }

  /** The loop ends without quota or without queued packets, as `r0` says. */
  lemma ReplenishingDone(quota: UInt16, q: seq<(UInt16, Pub)>, sent: seq<(UInt16, Pub)>, r0: Replenished)
    requires (quota == 0 || q == []) && Replenishing(quota, q, sent, r0)
    ensures quota == r0.quota && q == r0.rest && sent == r0.sent
  {
  }

  /** One packet drained by a flush: kept when it fits, skipped otherwise. */
  lemma DrainStep(batch: seq<OutPacket>, queue: seq<OutPacket>, all: seq<OutPacket>, max: UInt32, size: OutPacket -> nat)
    requires queue != [] && batch + Kept(queue, max, size) == Kept(all, max, size)
    ensures (batch + if Fits(queue[0], max, size) then [queue[0]] else []) + Kept(queue[1..], max, size) == Kept(all, max, size)
  {
    var head := if Fits(queue[0], max, size) then [queue[0]] else [];
    var rest := Kept(queue[1..], max, size);
    assert Kept(queue, max, size) == head + rest;
    SortedEntries.AppendAssoc(batch, head, rest);
  }

  /**
   * The drain loop of the outermost `EndPacketBuffer`: packets are dequeued in order and the ones a
   * server maximum packet size allows are collected into the batch handed to the transport.
   */
  method Drain(waiting: seq<OutPacket>, max: UInt32, size: OutPacket -> nat) returns (batch: seq<OutPacket>)
    ensures batch == Kept(waiting, max, size)
  {
    batch := [];
    var queue := waiting;
    while queue != []
      invariant batch + Kept(queue, max, size) == Kept(waiting, max, size)
      decreases |queue|
    {
      DrainStep(batch, queue, waiting, max, size);
      batch := batch + if Fits(queue[0], max, size) then [queue[0]] else [];
      queue := queue[1..];
    }
    assert batch + [] == batch;
  }

  // ------------------------------------------------------------ publish

  /** A PUBLISH request as the application message builder hands it over: QoS, packet identifier, topic name, and its Topic Alias property (0 when absent). */
  datatype PublishRequest = PublishRequest(qos: QoSLevel, packetId: UInt16, topic: Topic, alias: UInt16)

  /**
   * The alias step of `BeginPublish`: a request with a topic alias of its
   * own sets that alias to its topic name, and is refused (`None`) when the
   * name is empty; one without looks its topic name up, as `AliasStep`
   * says.  The answer is the aliases, then the topic name and the alias the
   * packet is built with.
   */
  function PublishAliases(es: seq<AliasEntry>, req: PublishRequest, max: UInt16): Option<(seq<AliasEntry>, Topic, UInt16)>
  {
    if req.alias != 0 then
      if req.topic == [] then None else Some((AliasSet(es, req.alias, req.topic), req.topic, req.alias))
    else Some(AliasStep(es, req.topic, max))
  }

  /** The alias `Find(topicName)` answers names that topic when no alias is on two entries. */
  lemma {:induction false} AliasFindNames(es: seq<AliasEntry>, topic: Topic)
    requires DistinctAliases(es) && AliasFind(es, topic).0 != 0
    ensures AliasTopic(es, AliasFind(es, topic).0) == Some(topic)
  {
    if es[0].topic != topic {
      var a := AliasFind(es, topic).0;
      AliasFindNames(es[1..], topic);
      assert es[0].alias != a by {
        assert AliasTopic(es[1..], a).Some?;
      }
    }
  }

  /**
   * The server can always tell a published packet's topic: the packet
   * carries the request's topic name, or it carries none and its alias
   * names that topic in the client's aliases after the step, which stay
   * free of repeated aliases [MQTT-3.3.2-8].
   */
  lemma PublishAliasesName(es: seq<AliasEntry>, req: PublishRequest, max: UInt16)
    requires DistinctAliases(es) && PublishAliases(es, req, max).Some?
    ensures var (es', topic, alias) := PublishAliases(es, req, max).value;
            DistinctAliases(es')
            && (topic == req.topic || (topic == [] && alias != 0 && AliasTopic(es', alias) == Some(req.topic)))
            && (alias != 0 ==> AliasTopic(es', alias) == Some(req.topic))
  {
    if req.alias != 0 {
      AliasSetNames(es, req.alias, req.topic);
    } else {
      var (a, sent) := AliasFind(es, req.topic);
      if a != 0 {
        AliasFindNames(es, req.topic);
      }
    }
  }

  /**
   * The alias step of `BeginPublish` as written.  `builder` is an `in`
   * parameter of a mutable struct, so every call made on it acts on a
   * copy: `WithTopicName(string.Empty)` leaves the name as it was, and
   * `PropertyBuilder.WithTopicAlias` reaches the packet only when the
   * message already had a property (`hadProperties`), whose list the copy
   * shares.  The client's aliases change as `AliasStep` says.
   */
  function PublishAliasesAsWritten(es: seq<AliasEntry>, req: PublishRequest, hadProperties: bool, max: UInt16): Option<(seq<AliasEntry>, Topic, UInt16)>
  {
    if req.alias != 0 then PublishAliases(es, req, max)
    else
      var (es', _, alias) := AliasStep(es, req.topic, max);
      Some((es', req.topic, if hadProperties then alias else 0))
  }

  /**
   * A message without properties to a topic the client holds an unsent
   * alias for, published twice.  As written, the first publish marks the
   * alias sent but carries no alias, and the second again carries the whole
   * name and no alias: the server never learns the alias.  As intended the
   * first carries the name and the alias, the second only the alias.
   */
  lemma UnusedAliasAsWritten(es: seq<AliasEntry>, req: PublishRequest, max: UInt16)
    requires DistinctAliases(es) && req.alias == 0 && req.topic != []
    requires var (alias, sent) := AliasFind(es, req.topic); 0 < alias <= max && !sent
    ensures var a := AliasFind(es, req.topic).0;
            var first := PublishAliasesAsWritten(es, req, false, max).value;
            var second := PublishAliasesAsWritten(first.0, req, false, max).value;
            AliasFind(first.0, req.topic) == (a, true)
            && first.1 == req.topic && first.2 == 0 && second.1 == req.topic && second.2 == 0
    ensures var a := AliasFind(es, req.topic).0;
            var first := PublishAliases(es, req, max).value;
            var second := PublishAliases(first.0, req, max).value;
            first.1 == req.topic && first.2 == a && second.1 == [] && second.2 == a
  {
    MarkSentFound(es, req.topic);
  }

  // ------------------------------------------------------- unsubscribe

  /**
   * The loop of `HandleUnsubscribeAckPacket` over the acknowledged filters:
   * each is reported with the reason code the payload answers at its
   * position and then taken out of the subscriptions.  A payload of one
   * code or none answers for every filter; a longer one shorter than the
   * filters stops the loop at the first filter without a code (the lookup
   * throws).
   */
  method UnsubscribeAll(subs: map<UInt32, seq<Subscriptions.TopicFilter>>, fs: seq<string>, codes: seq<Byte>)
    returns (subs': map<UInt32, seq<Subscriptions.TopicFilter>>, acks: seq<Event>)
    ensures var n := AckedCount(|fs|, codes);
            subs' == UnsubscribedAll(subs, fs[..n]) && acks == AckEvents(fs[..n], codes)
    ensures subs'.Keys <= subs.Keys
  {
    var n := AckedCount(|fs|, codes);
    subs', acks := subs, [];
    var i := 0;
    while i < n
      invariant 0 <= i <= n
      invariant subs' == UnsubscribedAll(subs, fs[..i])
      invariant acks == AckEvents(fs[..i], codes)
    {
      UnsubscribeStep(subs, fs, codes, i);
      acks := acks + [UnsubscribeAcked(fs[i], CodeAt(codes, i))];
      subs' := Unsubscribed(subs', fs[i]);
      i := i + 1;
    }
    UnsubscribedAllKeeps(subs, fs[..n]);
  }

  /** One more acknowledged filter: one more callback, and one more filter taken out. */
  lemma UnsubscribeStep(subs: map<UInt32, seq<Subscriptions.TopicFilter>>, fs: seq<string>, codes: seq<Byte>, i: nat)
    requires i < |fs| && (|codes| <= 1 || i < |codes|)
    ensures UnsubscribedAll(subs, fs[..i + 1]) == Unsubscribed(UnsubscribedAll(subs, fs[..i]), fs[i])
    ensures AckEvents(fs[..i + 1], codes) == AckEvents(fs[..i], codes) + [UnsubscribeAcked(fs[i], CodeAt(codes, i))]
  {
    assert fs[..i + 1][..i] == fs[..i];
  }

  // ---------------------------------------------------------- delivery

  /** The `default` case of the PUBLISH handler's topic switch: the topic callback of every filter that selects the topic, in order. */
  method MatchFilters(id: UInt32, fs: seq<Subscriptions.TopicFilter>, topic: string) returns (evs: seq<Event>)
    requires topic != []
    ensures evs == MatchingDeliveries(id, fs, topic)
  {
    evs := [];
    var i := 0;
    while i < |fs|
      invariant 0 <= i <= |fs|
      invariant evs + MatchingDeliveries(id, fs[i..], topic) == MatchingDeliveries(id, fs, topic)
    {
      MatchStep(evs, fs[i..], id, topic, MatchingDeliveries(id, fs, topic));
      assert fs[i..][0] == fs[i] && fs[i..][1..] == fs[i + 1..];
      evs := evs + if Subscriptions.Matches(fs[i].filter, topic) then [TopicMessage(id, fs[i].filter, topic)] else [];
      i := i + 1;
    }
    assert fs[i..] == [];
    assert evs + [] == evs;
  }

  /** One filter checked: its callback, when it matches, joins those made so far. */
  lemma MatchStep(evs: seq<Event>, fs: seq<Subscriptions.TopicFilter>, id: UInt32, topic: string, all: seq<Event>)
    requires topic != [] && fs != [] && evs + MatchingDeliveries(id, fs, topic) == all
    ensures (evs + if Subscriptions.Matches(fs[0].filter, topic) then [TopicMessage(id, fs[0].filter, topic)] else [])
            + MatchingDeliveries(id, fs[1..], topic) == all
  {
    var head := if Subscriptions.Matches(fs[0].filter, topic) then [TopicMessage(id, fs[0].filter, topic)] else [];
    var rest := MatchingDeliveries(id, fs[1..], topic);
    assert MatchingDeliveries(id, fs, topic) == head + rest;
    SortedEntries.AppendAssoc(evs, head, rest);
  }

  /**
   * The topic callbacks one message reaches, as the handler's switch on the
   * subscription's topic count makes them; `None` when the filter check
   * throws on an empty topic name.
   */
  method Deliver(m: AppMessage, topic: string, subs: map<UInt32, seq<Subscriptions.TopicFilter>>) returns (r: Option<seq<Event>>)
    ensures r == Deliveries(m, topic, subs)
  {
    if m.subscriptionId !in subs {
      return Some([]);
    }
    var fs := subs[m.subscriptionId];
    if |fs| == 0 {
      r := Some([]);
    } else if |fs| == 1 {
      r := Some([TopicMessage(m.subscriptionId, fs[0].filter, topic)]);
    } else if topic == [] {
      r := None;
    } else {
      var evs := MatchFilters(m.subscriptionId, fs, topic);
      r := Some(evs);
    }
  }

  /** The delivery loop part-way: `done` has been raised, and the rest of the loop over `msgs` would finish as `d0`. */
  predicate Dispatching(msgs: seq<AppMessage>, received: set<UInt16>, subs: map<UInt32, seq<Subscriptions.TopicFilter>>,
                        aliases: map<UInt16, string>, done: seq<Event>, d0: Dispatched)
  {
    var d := DispatchAll(msgs, received, subs, aliases);
    d0 == Dispatched(d.aliases, done + d.events, d.completed)
  }

  /** `DispatchAll` unfolded once, for a message that is delivered. */
  lemma DispatchAllCons(msgs: seq<AppMessage>, received: set<UInt16>, subs: map<UInt32, seq<Subscriptions.TopicFilter>>,
                        aliases: map<UInt16, string>)
    requires msgs != [] && !Duplicate(msgs[0], received) && Deliveries(msgs[0], ResolvedTopic(msgs[0], aliases), subs).Some?
    ensures var d := DispatchAll(msgs, received, subs, aliases);
            var r := DispatchAll(msgs[1..], received, subs, AliasesAfter(msgs[0], aliases));
            d.aliases == r.aliases && d.completed == r.completed &&
            d.events == Deliveries(msgs[0], ResolvedTopic(msgs[0], aliases), subs).value + [MessageRaised(msgs[0])] + r.events
  {
  }

  /** One message delivered: its callbacks and its application message callback join those made so far. */
  lemma DispatchingStep(msgs: seq<AppMessage>, received: set<UInt16>, subs: map<UInt32, seq<Subscriptions.TopicFilter>>,
                        aliases: map<UInt16, string>, done: seq<Event>, d0: Dispatched)
    requires msgs != [] && !Duplicate(msgs[0], received) && Deliveries(msgs[0], ResolvedTopic(msgs[0], aliases), subs).Some?
    requires Dispatching(msgs, received, subs, aliases, done, d0)
    ensures Dispatching(msgs[1..], received, subs, AliasesAfter(msgs[0], aliases),
                        done + Deliveries(msgs[0], ResolvedTopic(msgs[0], aliases), subs).value + [MessageRaised(msgs[0])], d0)
  {
    var m := msgs[0];
    var evs := Deliveries(m, ResolvedTopic(m, aliases), subs).value + [MessageRaised(m)];
    var r := DispatchAll(msgs[1..], received, subs, AliasesAfter(m, aliases));
    DispatchAllCons(msgs, received, subs, aliases);
    SortedEntries.AppendAssoc(done, evs, r.events);
  }

  /** The delivery loop stopped: at the end, at a duplicate, or at a filter check that threw. */
  lemma DispatchingDone(msgs: seq<AppMessage>, received: set<UInt16>, subs: map<UInt32, seq<Subscriptions.TopicFilter>>,
                        aliases: map<UInt16, string>, done: seq<Event>, d0: Dispatched)
    requires Dispatching(msgs, received, subs, aliases, done, d0)
    ensures msgs == [] || Duplicate(msgs[0], received) ==> d0 == Dispatched(aliases, done, true)
    ensures msgs != [] && !Duplicate(msgs[0], received) && Deliveries(msgs[0], ResolvedTopic(msgs[0], aliases), subs).None?
            ==> d0 == Dispatched(AliasesAfter(msgs[0], aliases), done, false)
  {
    assert done + [] == done;
  }

  /** The acknowledgement the PUBLISH handler sends for the first message: PUBACK for QoS 1, PUBREC for QoS 2. */
  function AckPackets(m: AppMessage): seq<OutPacket>
  {
    if m.qos == AtLeastOnceDelivery then [PubAckOut(m.packetId)]
    else if m.qos == ExactlyOnceDelivery then [PubRecOut(m.packetId)]
    else []
  }

  /** The received identifiers after the acknowledgement: a QoS 2 message's identifier joins them. */
  function ReceivedAfter(m: AppMessage, received: set<UInt16>): set<UInt16>
  {
    if m.qos == ExactlyOnceDelivery then received + {m.packetId} else received
  }

  /** Whether the acknowledgement finds the received identifiers, counted in 16 bits, at the client's Receive Maximum or above. */
  predicate Exceeded(m: AppMessage, received: set<UInt16>, receiveMaximum: UInt16)
  {
    m.qos == ExactlyOnceDelivery && |ReceivedAfter(m, received)| % 0x1_0000 >= receiveMaximum
  }

  // ------------------------------------------------------------- retry

  /** The PUBREL pass of `MessageDeliveryRetry`: `GetNext(0)`, then `GetNext` of each identifier found, over the released identifiers. */
  method ReleasedIds(released: set<UInt16>) returns (ids: seq<UInt16>)
    ensures ids == ReleasedOrder(released)
  {
    ids := [];
    var next := NextFrom(released, 1);
    var c: nat := 1;
    AscendingNext(released, 1);
    while next.Some?
      invariant 1 <= c <= 0xFFFF && next == NextFrom(released, c)
      invariant ids + AscendingFrom(released, c) == AscendingFrom(released, 1)
      decreases 0xFFFF - c
    {
      var n := next.value;
      AscendingNext(released, c);
      SortedEntries.AppendAssoc(ids, [n as int], AscendingFrom(released, n + 1));
      ids := ids + [n];
      c := n + 1;
      next := NextFrom(released, c);
    }
    AscendingNext(released, c);
    assert ids + [] == ids;
  }

  /**
   * The first pass of `MessageDeliveryRetry`: the unacknowledged packets,
   * in the order they were first sent and while there is quota, each
   * resent for one unit of it.
   */
  method ResendPass(q: seq<(UInt16, Pub)>, quota: UInt16, aliases: seq<AliasEntry>) returns (ps: seq<OutPacket>, spent: nat)
    ensures spent == Spent(quota, |q|) && ps == Resends(q[..spent], aliases)
  {
    ghost var r := q[..Spent(quota, |q|)];
    ps := [];
    var left := quota;
    var i := 0;
    while i < |q| && left > 0
      invariant 0 <= i <= |r| && left as int == quota as int - i
      invariant ps + Resends(r[i..], aliases) == Resends(r, aliases)
    {
      ResendStep(ps, r, i, aliases, Resends(r, aliases));
      ps := ps + [PublishOut(q[i].0, Resent(q[i].1, aliases))];
      left := left - 1;
      i := i + 1;
    }
    assert r[i..] == [] && ps + [] == ps;
    spent := i;
  }

  /** The second pass of `MessageDeliveryRetry`: a PUBREL for every released identifier, in ascending order. */
  method ReleasePass(released: set<UInt16>) returns (ps: seq<OutPacket>)
    ensures ps == Releases(ReleasedOrder(released))
  {
    var ids := ReleasedIds(released);
    ps := PubRels(ids);
  }

  /** A PUBREL with reason Success for each identifier, in order. */
  method PubRels(ids: seq<UInt16>) returns (ps: seq<OutPacket>)
    ensures ps == Releases(ids)
  {
    ps := [];
    var j := 0;
    while j < |ids|
      invariant 0 <= j <= |ids| && |ps| == j
      invariant forall k :: 0 <= k < j ==> ps[k] == PubRelOut(ids[k], Success)
    {
      ps := ps + [PubRelOut(ids[j], Success)];
      j := j + 1;
    }
  }

  /** One more packet resent: it joins those sent so far. */
  lemma ResendStep(done: seq<OutPacket>, r: seq<(UInt16, Pub)>, i: nat, aliases: seq<AliasEntry>, all: seq<OutPacket>)
    requires i < |r| && done + Resends(r[i..], aliases) == all
    ensures (done + [PublishOut(r[i].0, Resent(r[i].1, aliases))]) + Resends(r[i + 1..], aliases) == all
  {
    assert r[i..][1..] == r[i + 1..];
    SortedEntries.AppendAssoc(done, [PublishOut(r[i].0, Resent(r[i].1, aliases))], Resends(r[i + 1..], aliases));
  }

  /** The two passes of a retry, sent after `o`, are `o` followed by the retry. */
  lemma RetrySplit(quota: UInt16, s: Session, resends: seq<OutPacket>, releases: seq<OutPacket>, o: seq<OutPacket>)
    requires resends == Resends(s.unacked[..Spent(quota, |s.unacked|)], s.aliases)
    requires releases == Releases(ReleasedOrder(s.released))
    ensures o + resends + releases == o + Retry(quota, s)
  {
    SortedEntries.AppendAssoc(o, resends, releases);
  }

  // ---------------------------------------------------------- incoming

  /** A packet from the broker, as its handler reads it. */
  datatype Incoming =
    | ConnectAckIn(ack: ServerConnectAcks.ServerConnectAck, stored: Session)
    | DisconnectIn(code: Option<Byte>)
    | UnsubscribeAckIn(unsubscribeId: UInt16, codes: seq<Byte>)
    | PublishIn(msgs: seq<AppMessage>)
    | PublishReceivedIn(receivedId: UInt16, reason: Byte)
    | PublishReleaseIn(releaseId: UInt16)
    | PublishCompleteIn(completeId: UInt16)
    | PublishAckIn(ackId: UInt16)
    | OtherIn

  class MQTTClient {
    var state: ClientState
    /** The callbacks invoked so far, in order. */
    var events: seq<Event>
    var sendQuota: UInt16
    var maxQuota: UInt16
    /** `_lastPacketID`: the counter the packet identifiers are drawn from. */
    var lastPacketId: nat
    var session: Session
    /** `NegotiatedOptions.ServerOptions`. */
    var server: ServerConnectAcks.ServerConnectAck
    /** `NegotiatedOptions.ClientReceiveMaximum`. */
    var clientReceiveMaximum: UInt16
    /** `HTTPManager.IsQuitting`. */
    var quitting: bool
    /** The server's topic aliases. */
    var serverAliases: map<UInt16, string>
    /** The subscriptions by subscription identifier, each with its topic filters. */
    var subscriptions: map<UInt32, seq<Subscriptions.TopicFilter>>
    /** The filters of each UNSUBSCRIBE waiting for its acknowledgement, by packet identifier. */
    var pendingUnsubscriptions: map<UInt16, seq<string>>
    /** The nesting depth of `BeginPacketBuffer`. */
    var bufferPackets: nat
    /** The packets waiting for the next flush. */
    var outgoing: seq<OutPacket>
    /** What each flush handed to the transport, one batch per flush. */
    var wire: seq<seq<OutPacket>>
    /** Whether the protocol version is MQTT 5.0. */
    const isV5: bool
    /** The encoded size of a packet, `Packet.CalculatePacketSize`. */
    const sizeOf: OutPacket -> nat

    /** The send quota never exceeds its maximum, and unbuffered packets never wait. */
    predicate Valid()
      reads this`sendQuota, this`maxQuota, this`bufferPackets, this`outgoing
    {
      sendQuota <= maxQuota && (bufferPackets == 0 ==> outgoing == [])
    }

    constructor(isV5: bool, sizeOf: OutPacket -> nat)
      ensures Valid()
      ensures this.isV5 == isV5 && this.sizeOf == sizeOf
      ensures state == Initial && events == [] && session == EmptySession()
      ensures sendQuota == 0 && maxQuota == 0 && lastPacketId == 0 && server == NoServerOptions()
      ensures serverAliases == map[] && subscriptions == map[] && pendingUnsubscriptions == map[]
      ensures bufferPackets == 0 && outgoing == [] && wire == []
    {
      this.isV5 := isV5;
      this.sizeOf := sizeOf;
      state := Initial;
      events := [];
      sendQuota, maxQuota := 0, 0;
      lastPacketId := 0;
      session := EmptySession();
      server := NoServerOptions();
      clientReceiveMaximum := 0;
      quitting := false;
      serverAliases := map[];
      subscriptions := map[];
      pendingUnsubscriptions := map[];
      bufferPackets := 0;
      outgoing := [];
      wire := [];
    }

    /**
     * The packets `ps` were sent: unbuffered, each was flushed on its own
     * (a batch per packet, without those over the server's maximum size);
     * buffered, they wait for the flush.
     */
    twostate predicate Sent(ps: seq<OutPacket>)
      reads this`bufferPackets, this`outgoing, this`wire, this`server
    {
      bufferPackets == old(bufferPackets)
      && if old(bufferPackets) == 0 then outgoing == [] && wire == old(wire) + Singles(ps, server.maximumPacketSize, sizeOf)
         else outgoing == old(outgoing) + ps && wire == old(wire)
    }

    // ------------------------------------------------------------ state

    /** The `State` setter: a change of state is reported to `OnStateChanged`, setting the same state is not. */
    method SetState(to: ClientState)
      modifies this`state, this`events
      ensures state == to
      ensures events == old(events) + if old(state) != to then [StateChanged(old(state), to)] else []
    {
      if state != to {
        var from := state;
        state := to;
        events := events + [StateChanged(from, to)];
      }
    }

    /** `SetDisconnected`: once `Disconnected` nothing more happens; otherwise the state becomes `Disconnected` and `OnDisconnect` is called. */
    method SetDisconnected(code: Byte)
      modifies this`state, this`events
      ensures state == Disconnected
      ensures events == old(events) + DisconnectEvents(old(state), code)
    {
      if state == Disconnected {
        return;
      }
      SetState(Disconnected);
      events := events + [DisconnectRaised(code)];
    }

    /** `Error`: `OnError`, the transport told to disconnect when there is one, then `SetDisconnected`. */
    method Error(code: Byte)
      modifies this`state, this`events
      ensures state == Disconnected
      ensures events == old(events) + ErrorEvents(old(state), code)
    {
      events := events + [ErrorRaised(code)];
      if state != Initial {
        events := events + [TransportDisconnect];
      }
      SetDisconnected(code);
    }

    // ---------------------------------------------------------- sending

    /** `BeginPacketBuffer`: one more level of buffering. */
    method BeginPacketBuffer()
      requires Valid()
      modifies this`bufferPackets
      ensures Valid()
      ensures bufferPackets == old(bufferPackets) + 1
    {
      bufferPackets := bufferPackets + 1;
    }

    /**
     * `EndPacketBuffer`: one level of buffering less; at the outermost level
     * the waiting packets are drained and, when there were any, handed to
     * the transport in one batch, without those over the server's maximum.
     */
    method EndPacketBuffer()
      requires sendQuota <= maxQuota
      modifies this`bufferPackets, this`outgoing, this`wire
      ensures Valid()
      ensures bufferPackets == if old(bufferPackets) == 0 then 0 else old(bufferPackets) - 1
      ensures bufferPackets == 0 ==> outgoing == [] && wire == old(wire) + if old(outgoing) == [] then []
                                                                             else [Kept(old(outgoing), server.maximumPacketSize, sizeOf)]
      ensures bufferPackets > 0 ==> outgoing == old(outgoing) && wire == old(wire)
    {
      if bufferPackets > 0 {
        bufferPackets := bufferPackets - 1;
        if bufferPackets > 0 {
          return;
        }
      }
      Flush();
    }

    /** The outermost `EndPacketBuffer`'s flush: the waiting packets are drained into one batch for the transport, if there were any. */
    method Flush()
      modifies this`outgoing, this`wire
      ensures outgoing == []
      ensures wire == old(wire) + if old(outgoing) == [] then [] else [Kept(old(outgoing), server.maximumPacketSize, sizeOf)]
    {
      if outgoing != [] {
        var batch := Drain(outgoing, server.maximumPacketSize, sizeOf);
        wire := wire + [batch];
        outgoing := [];
      }
    }

    /** `Send`: the packet joins the waiting ones, and is flushed at once when nothing is buffering. */
    method Send(p: OutPacket)
      requires Valid()
      modifies this`bufferPackets, this`outgoing, this`wire
      ensures Valid() && Sent([p])
    {
      outgoing := outgoing + [p];
      if bufferPackets == 0 {
        EndPacketBuffer();
      }
    }

    /**
     * `SendPublishPacket`: a packet with an identifier becomes
     * unacknowledged and uses one unit of send quota; the packet is sent.
     * The caller never sends one without quota.
     */
    method SendPublishPacket(id: UInt16, pub: Pub)
      requires Valid() && (id != 0 ==> sendQuota > 0)
      modifies this`bufferPackets, this`outgoing, this`wire, this`session, this`sendQuota
      ensures Valid() && Sent([PublishOut(id, pub)])
      ensures id != 0 ==> session == old(session).(unacked := old(session.unacked) + [(id, pub)]) && sendQuota == old(sendQuota) - 1
      ensures id == 0 ==> session == old(session) && sendQuota == old(sendQuota)
    {
      if id != 0 {
        session := session.(unacked := session.unacked + [(id, pub)]);
        sendQuota := sendQuota - 1;
      }
      Send(PublishOut(id, pub));
    }

    /**
     * `BeginDisconnect`: from `TransportConnecting` to `Connected` the queued
     * packets are dropped, a DISCONNECT is sent when connected, the state
     * becomes `Disconnecting` and the transport is told to disconnect; when
     * the application is quitting the client is disconnected at once.
     */
    method BeginDisconnect(reason: Byte)
      requires Valid()
      modifies this`state, this`events, this`session, this`bufferPackets, this`outgoing, this`wire
      ensures Valid() && Sent(DisconnectPackets(old(state), isV5, reason))
      ensures state == AfterBeginDisconnect(old(state), quitting)
      ensures events == old(events) + BeginDisconnectEvents(old(state), quitting)
      ensures session == if Disconnectable(old(state)) then old(session).(queued := []) else old(session)
    {
      if !Disconnectable(state) {
        return;
      }
      var from := state;
      session := session.(queued := []);
      if state == Connected {
        Send(DisconnectOut(if isV5 then Some(reason) else None));
      }
      SetState(Disconnecting);
      events := events + [TransportDisconnect];
      assert events == old(events) + [StateChanged(from, Disconnecting), TransportDisconnect];
      if quitting {
        SetDisconnected(NormalDisconnection);
      }
    }

    /**
     * `MQTTError`: the error's DISCONNECT reason code goes to the broker
     * (with MQTT 5) and to `Error`; the client always ends `Disconnected`.
     */
    method MQTTError(e: ErrorType)
      requires Valid()
      modifies this`state, this`events, this`session, this`bufferPackets, this`outgoing, this`wire
      ensures Valid() && Sent(DisconnectPackets(old(state), isV5, DisconnectCodeOf(e)))
      ensures state == Disconnected
      ensures events == old(events) + BeginDisconnectEvents(old(state), quitting)
                        + ErrorEvents(AfterBeginDisconnect(old(state), quitting), DisconnectCodeOf(e))
      ensures session == if Disconnectable(old(state)) then old(session).(queued := []) else old(session)
    {
      var code := DisconnectCodeOf(e);
      BeginDisconnect(code);
      Error(code);
    }

    /** `BeginConnect`: refused unless the client is new; otherwise it starts connecting its transport. */
    method BeginConnect() returns (r: Result<()>)
      modifies this`state, this`events
      ensures r.Err? <==> old(state) != Initial
      ensures r.Err? ==> state == old(state) && events == old(events)
      ensures r.Ok? ==> state == TransportConnecting && events == old(events) + [StateChanged(Initial, TransportConnecting), TransportConnect]
    {
      if state != Initial {
        return Err("client already used");
      }
      SetState(TransportConnecting);
      events := events + [TransportConnect];
      return Ok(());
    }

    /**
     * `TransportConnected`: unless disconnecting, the session and the
     * client's Receive Maximum come from the CONNECT builder, the CONNECT
     * packet is sent and the state becomes `TransportConnected`.
     */
    method TransportConnected(built: Session, receiveMaximum: UInt16)
      requires Valid()
      modifies this`state, this`events, this`session, this`clientReceiveMaximum, this`bufferPackets, this`outgoing, this`wire
      ensures Valid()
      ensures Rank(old(state)) >= 4 ==> state == old(state) && events == old(events) && session == old(session)
                                        && outgoing == old(outgoing) && wire == old(wire) && bufferPackets == old(bufferPackets)
                                        && clientReceiveMaximum == old(clientReceiveMaximum)
      ensures Rank(old(state)) < 4 ==> state == ClientState.TransportConnected && Sent([ConnectOut]) && session == built
                                       && clientReceiveMaximum == receiveMaximum
                                       && events == old(events) + if old(state) != ClientState.TransportConnected then [StateChanged(old(state), ClientState.TransportConnected)] else []
    {
      if Rank(state) >= 4 {
        return;
      }
      session := built;
      clientReceiveMaximum := receiveMaximum;
      Send(ConnectOut);
      SetState(ClientState.TransportConnected);
    }

    /** `TransportDisconnectedWithError`: an `UnspecifiedError` unless already disconnected. */
    method TransportDisconnectedWithError()
      modifies this`state, this`events
      ensures state == Disconnected
      ensures events == old(events) + if old(state) == Disconnected then [] else ErrorEvents(old(state), UnspecifiedError)
    {
      if state == Disconnected {
        return;
      }
      Error(UnspecifiedError);
    }

    /** `TransportDisconnected`: a normal disconnection. */
    method TransportDisconnected()
      modifies this`state, this`events
      ensures state == Disconnected
      ensures events == old(events) + DisconnectEvents(old(state), NormalDisconnection)
    {
      if state == Disconnected {
        return;
      }
      SetDisconnected(NormalDisconnection);
    }

    // ------------------------------------------------ packet identifiers

    /**
     * `GetNextPacketID`: the counter's candidates in turn until one is
     * neither unacknowledged nor released.  The counter goes round all
     * 65534 identifiers at most once, so `None` means every one is in use.
     */
    method GetNextPacketID() returns (r: Option<UInt16>)
      modifies this`lastPacketId
      ensures (r, lastPacketId) == NextIdentifier(session, old(lastPacketId), 0xFFFE)
      ensures r.Some? ==> 1 <= r.value < 0xFFFF && Free(session, r.value)
      ensures r.None? <==> forall t: UInt16 :: 1 <= t < 0xFFFF ==> !Free(session, t)
    {
      var s, n0 := session, lastPacketId;
      var n := n0;
      while n - n0 < 0xFFFE
        invariant n0 <= n <= n0 + 0xFFFE
        invariant forall m :: n0 <= m < n ==> !Free(s, Candidate(m))
      {
        var id := Candidate(n);
        if Free(s, id) {
          lastPacketId := n + 1;
          NextIdentifierPasses(s, n0, n - n0, 0xFFFE);
          NextIdentifierLap(s, n0);
          return Some(id);
        }
        n := n + 1;
      }
      lastPacketId := n;
      NextIdentifierPasses(s, n0, 0xFFFE, 0xFFFE);
      NextIdentifierLap(s, n0);
      return None;
    }

    // ------------------------------------------------------------ quota

    /**
     * `IncrementAndReplenishQueue`: one unit of quota back, then the queued
     * packets are sent while there is quota, as `Replenish` says.
     */
    method IncrementAndReplenishQueue()
      requires Valid() && bufferPackets > 0
      modifies this`sendQuota, this`session, this`bufferPackets, this`outgoing, this`wire
      ensures Valid()
      ensures var r := Replenish(Incremented(old(sendQuota), old(maxQuota)), old(session.queued));
              sendQuota == r.quota && session == old(session).(queued := r.rest, unacked := old(session.unacked) + r.sent)
              && outgoing == old(outgoing) + Publishes(r.sent)
      ensures bufferPackets == old(bufferPackets) && wire == old(wire)
    {
      sendQuota := Incremented(sendQuota, maxQuota);
      ghost var r0 := Replenish(sendQuota, session.queued);
      ghost var sent: seq<(UInt16, Pub)> := [];
      while sendQuota > 0 && session.queued != []
        invariant Valid() && bufferPackets == old(bufferPackets) && wire == old(wire)
        invariant session == old(session).(queued := session.queued, unacked := old(session.unacked) + sent)
        invariant outgoing == old(outgoing) + Publishes(sent)
        invariant Replenishing(sendQuota, session.queued, sent, r0)
        decreases |session.queued|
      {
        var (id, pub) := session.queued[0];
        ReplenishingStep(sendQuota, session.queued, sent, r0);
        session := session.(queued := session.queued[1..]);
        if id != 0 {
          SendPublishPacket(id, pub);
          PublishesAppend(sent, (id, pub));
          sent := sent + [(id, pub)];
        }
      }
      ReplenishingDone(sendQuota, session.queued, sent, r0);
    }

    /** `HandlePublishAckPacket`: the quota is replenished, then the acknowledged packet stops being unacknowledged. */
    method HandlePublishAck(id: UInt16)
      requires Valid() && bufferPackets > 0
      modifies this`sendQuota, this`session, this`bufferPackets, this`outgoing, this`wire
      ensures Valid()
      ensures var r := Replenish(Incremented(old(sendQuota), old(maxQuota)), old(session.queued));
              sendQuota == r.quota && outgoing == old(outgoing) + Publishes(r.sent)
              && session == old(session).(queued := r.rest, unacked := WithoutId(old(session.unacked) + r.sent, id))
      ensures id !in Ids(session.unacked)
      ensures bufferPackets == old(bufferPackets) && wire == old(wire)
    {
      IncrementAndReplenishQueue();
      session := session.(unacked := WithoutId(session.unacked, id));
    }

    /** `HandlePublishCompletePacket`: the quota is replenished, then the identifier stops being released. */
    method HandlePublishComplete(id: UInt16)
      requires Valid() && bufferPackets > 0
      modifies this`sendQuota, this`session, this`bufferPackets, this`outgoing, this`wire
      ensures Valid()
      ensures var r := Replenish(Incremented(old(sendQuota), old(maxQuota)), old(session.queued));
              sendQuota == r.quota && outgoing == old(outgoing) + Publishes(r.sent)
              && session == old(session).(queued := r.rest, unacked := old(session.unacked) + r.sent,
                                          released := old(session.released) - {id})
      ensures bufferPackets == old(bufferPackets) && wire == old(wire)
    {
      IncrementAndReplenishQueue();
      session := session.(released := session.released - {id});
    }

    /**
     * `HandlePublishReceivedPacket`: the packet stops being unacknowledged
     * [MQTT-4.3.3-3].  An error code gives the quota back; otherwise a
     * PUBREL answers [MQTT-4.3.3-4], with Success and the identifier
     * released when the packet was found, and Packet Identifier Not Found
     * when it was not.
     */
    method HandlePublishReceived(id: UInt16, code: Byte)
      requires Valid() && bufferPackets > 0
      modifies this`sendQuota, this`session, this`bufferPackets, this`outgoing, this`wire
      ensures Valid()
      ensures var found := id in Ids(old(session.unacked));
              var unacked := WithoutId(old(session.unacked), id);
              if code >= 0x80 then
                var r := Replenish(Incremented(old(sendQuota), old(maxQuota)), old(session.queued));
                sendQuota == r.quota && outgoing == old(outgoing) + Publishes(r.sent)
                && session == old(session).(queued := r.rest, unacked := unacked + r.sent)
              else
                sendQuota == old(sendQuota)
                && outgoing == old(outgoing) + [PubRelOut(id, if found then Success else PacketIdentifierNotFound)]
                && session == old(session).(unacked := unacked, released := old(session.released) + if found then {id} else {})
      ensures bufferPackets == old(bufferPackets) && wire == old(wire)
    {
      var found := id in Ids(session.unacked);
      session := session.(unacked := WithoutId(session.unacked, id));
      if code >= 0x80 {
        IncrementAndReplenishQueue();
      } else {
        if found {
          session := session.(released := session.released + {id});
        }
        Send(PubRelOut(id, if found then Success else PacketIdentifierNotFound));
      }
    }

    /** `HandlePublishReleasePacket`: a PUBCOMP answers [MQTT-4.3.3-11], and the identifier stops being received. */
    method HandlePublishRelease(id: UInt16)
      requires Valid()
      modifies this`session, this`bufferPackets, this`outgoing, this`wire
      ensures Valid() && Sent([PubCompOut(id)])
      ensures session == old(session).(received := old(session.received) - {id})
    {
      Send(PubCompOut(id));
      session := session.(received := session.received - {id});
    }

    /** `HandleDisconnectPacket`: disconnected with the packet's reason code (Normal when absent), and the queue dropped. */
    method HandleDisconnect(code: Option<Byte>)
      modifies this`state, this`events, this`session
      ensures state == Disconnected
      ensures events == old(events) + DisconnectEvents(old(state), if code.Some? then code.value else NormalDisconnection)
      ensures session == old(session).(queued := [])
    {
      SetDisconnected(if code.Some? then code.value else NormalDisconnection);
      session := session.(queued := []);
    }

    // ---------------------------------------------------- subscriptions

    /** `AddSubscription`: a new subscription identifier gets its filters; a known one keeps its own. */
    method AddSubscription(id: UInt32, filters: seq<Subscriptions.TopicFilter>)
      modifies this`subscriptions
      ensures subscriptions.Keys == old(subscriptions).Keys + {id}
      ensures forall k :: k in old(subscriptions) ==> subscriptions[k] == old(subscriptions)[k]
      ensures id !in old(subscriptions) ==> subscriptions[id] == filters
    {
      if id !in subscriptions {
        subscriptions := subscriptions[id := filters];
      }
    }

    /** `AddUnsubscription`: refused unless connected; otherwise the filters wait under the packet identifier, unless it is taken. */
    method AddUnsubscription(packetId: UInt16, filters: seq<string>) returns (r: Result<()>)
      modifies this`pendingUnsubscriptions
      ensures r.Err? <==> state != Connected
      ensures r.Err? || packetId in old(pendingUnsubscriptions) ==> pendingUnsubscriptions == old(pendingUnsubscriptions)
      ensures r.Ok? && packetId !in old(pendingUnsubscriptions) ==> pendingUnsubscriptions == old(pendingUnsubscriptions)[packetId := filters]
    {
      if state != Connected {
        return Err("not connected");
      }
      if packetId !in pendingUnsubscriptions {
        pendingUnsubscriptions := pendingUnsubscriptions[packetId := filters];
      }
      return Ok(());
    }

    /**
     * `HandleUnsubscribeAckPacket`: an acknowledgement of no waiting request
     * changes nothing; otherwise the request stops waiting and its filters
     * are reported and unsubscribed in order: all of them when the payload
     * holds one code or none, otherwise those with a code.
     */
    method HandleUnsubscribeAck(id: UInt16, codes: seq<Byte>)
      modifies this`pendingUnsubscriptions, this`subscriptions, this`events
      ensures id !in old(pendingUnsubscriptions) ==>
                pendingUnsubscriptions == old(pendingUnsubscriptions) && subscriptions == old(subscriptions) && events == old(events)
      ensures id in old(pendingUnsubscriptions) ==>
                var fs := old(pendingUnsubscriptions)[id];
                var n := AckedCount(|fs|, codes);
                pendingUnsubscriptions == old(pendingUnsubscriptions) - {id}
                && subscriptions == UnsubscribedAll(old(subscriptions), fs[..n])
                && events == old(events) + AckEvents(fs[..n], codes)
      ensures subscriptions.Keys <= old(subscriptions).Keys
    {
      if id !in pendingUnsubscriptions {
        return;
      }
      var fs := pendingUnsubscriptions[id];
      pendingUnsubscriptions := pendingUnsubscriptions - {id};
      var subs, acks := UnsubscribeAll(subscriptions, fs, codes);
      subscriptions := subs;
      events := events + acks;
    }

    // ----------------------------------------------------- topic aliases

    /**
     * `AddTopicAlias`: refused for MQTT 3.1.1, for an empty topic name,
     * unless connected, and when the aliases already number the server's
     * Topic Alias Maximum or none in `[1, maximum]` is free; otherwise the
     * smallest free alias names the topic.
     */
    method AddTopicAlias(topic: Topic) returns (r: Result<UInt16>)
      modifies this`session
      ensures var es := old(session.aliases);
              var max := server.topicAliasMaximum;
              r.Err? <==> !isV5 || topic == [] || state != Connected || |es| % 0x1_0000 >= max || FreeAlias(es, 1, max) == 0
      ensures r.Err? ==> session == old(session)
      ensures r.Ok? ==>
                var es := old(session.aliases);
                1 <= r.value <= server.topicAliasMaximum && AliasTopic(es, r.value).None?
                && (forall b: UInt16 :: 1 <= b < r.value ==> AliasTopic(es, b).Some?)
                && session == old(session).(aliases := AliasSet(es, r.value, topic))
                && AliasTopic(session.aliases, r.value) == Some(topic)
    {
      if !isV5 {
        return Err("MQTT 3.1.1");
      }
      if topic == [] {
        return Err("empty topic name");
      }
      if state != Connected {
        return Err("not connected");
      }
      var max := server.topicAliasMaximum;
      if |session.aliases| % 0x1_0000 >= max {
        return Err("alias maximum reached");
      }
      var alias := FreeAlias(session.aliases, 1, max);
      if alias == 0 {
        return Err("no free alias");
      }
      AliasSetNames(session.aliases, alias, topic);
      session := session.(aliases := AliasSet(session.aliases, alias, topic));
      return Ok(alias);
    }

    // ------------------------------------------------------------ publish

    /**
     * The end of `BeginPublish`: a packet with QoS above 0 is queued when
     * there is no send quota [MQTT-4.9.0-2], any other is sent.
     */
    method QueueOrSend(id: UInt16, pub: Pub)
      requires Valid() && (pub.qos == AtMostOnceDelivery ==> id == 0)
      modifies this`bufferPackets, this`outgoing, this`wire, this`session, this`sendQuota
      ensures Valid()
      ensures pub.qos > AtMostOnceDelivery && old(sendQuota) == 0 ==>
                session == old(session).(queued := old(session.queued) + [(id, pub)]) && sendQuota == 0
                && outgoing == old(outgoing) && wire == old(wire) && bufferPackets == old(bufferPackets)
      ensures pub.qos == AtMostOnceDelivery || old(sendQuota) > 0 ==>
                Sent([PublishOut(id, pub)])
                && (id != 0 ==> session == old(session).(unacked := old(session.unacked) + [(id, pub)]) && sendQuota == old(sendQuota) - 1)
                && (id == 0 ==> session == old(session) && sendQuota == old(sendQuota))
    {
      if pub.qos > AtMostOnceDelivery && sendQuota == 0 {
        session := session.(queued := session.queued + [(id, pub)]);
      } else {
        SendPublishPacket(id, pub);
      }
    }

    /**
     * `BeginPublish`: refused unless connected; then the alias step, the
     * checks of `Build`, and the packet is queued or sent.  The alias step's
     * changes stay when `Build` refuses.  The message keeps its QoS: the
     * statement that would raise it to the server's Maximum QoS acts on a
     * copy of the builder (see `PublishAliasesAsWritten`).  That copy still
     * asks the client for a packet identifier, so the counter moves on as
     * `GetNextPacketID` moves it, and the identifier is dropped.
     */
    method BeginPublish(req: PublishRequest) returns (r: Result<(UInt16, Pub)>)
      requires Valid()
      modifies this`bufferPackets, this`outgoing, this`wire, this`session, this`sendQuota, this`lastPacketId
      ensures Valid()
      ensures lastPacketId == if old(state) == Connected && old(server.maximumQoS) > req.qos
                              then NextIdentifier(old(session), old(lastPacketId), 0xFFFE).1
                              else old(lastPacketId)
      ensures old(state) != Connected ==>
                r.Err? && session == old(session) && sendQuota == old(sendQuota)
                && outgoing == old(outgoing) && wire == old(wire) && bufferPackets == old(bufferPackets)
      ensures old(state) == Connected ==>
                var qos := req.qos;
                var id := if qos == AtMostOnceDelivery then 0 else req.packetId;
                var step := PublishAliases(old(session.aliases), req, server.topicAliasMaximum);
                if step.None? then
                  r.Err? && session == old(session) && sendQuota == old(sendQuota)
                  && outgoing == old(outgoing) && wire == old(wire) && bufferPackets == old(bufferPackets)
                else
                  var (es, topic, alias) := step.value;
                  var pub := Pub(qos, topic, alias, false);
                  if BuildRefusal(qos, topic, alias, server).Some? then
                    r.Err? && session == old(session).(aliases := es) && sendQuota == old(sendQuota)
                    && outgoing == old(outgoing) && wire == old(wire) && bufferPackets == old(bufferPackets)
                  else if qos > AtMostOnceDelivery && old(sendQuota) == 0 then
                    r == Ok((id, pub)) && session == old(session).(aliases := es, queued := old(session.queued) + [(id, pub)])
                    && sendQuota == 0 && outgoing == old(outgoing) && wire == old(wire) && bufferPackets == old(bufferPackets)
                  else
                    r == Ok((id, pub)) && Sent([PublishOut(id, pub)])
                    && session == old(session).(aliases := es, unacked := old(session.unacked) + if id != 0 then [(id, pub)] else [])
                    && sendQuota == old(sendQuota) - if id != 0 then 1 else 0
    {
      if state != Connected {
        return Err("not connected");
      }
      if server.maximumQoS > req.qos {
        var _ := GetNextPacketID();
      }
      r := PublishMessage(req);
    }

    /**
     * The connected part of `BeginPublish`, past the QoS statement: the
     * alias step, the checks of `Build`, then the packet queued or sent.
     */
    method PublishMessage(req: PublishRequest) returns (r: Result<(UInt16, Pub)>)
      requires Valid() && state == Connected
      modifies this`bufferPackets, this`outgoing, this`wire, this`session, this`sendQuota
      ensures Valid()
      ensures var qos := req.qos;
              var id := if qos == AtMostOnceDelivery then 0 else req.packetId;
              var step := PublishAliases(old(session.aliases), req, server.topicAliasMaximum);
              if step.None? then
                r.Err? && session == old(session) && sendQuota == old(sendQuota)
                && outgoing == old(outgoing) && wire == old(wire) && bufferPackets == old(bufferPackets)
              else
                var (es, topic, alias) := step.value;
                var pub := Pub(qos, topic, alias, false);
                if BuildRefusal(qos, topic, alias, server).Some? then
                  r.Err? && session == old(session).(aliases := es) && sendQuota == old(sendQuota)
                  && outgoing == old(outgoing) && wire == old(wire) && bufferPackets == old(bufferPackets)
                else if qos > AtMostOnceDelivery && old(sendQuota) == 0 then
                  r == Ok((id, pub)) && session == old(session).(aliases := es, queued := old(session.queued) + [(id, pub)])
                  && sendQuota == 0 && outgoing == old(outgoing) && wire == old(wire) && bufferPackets == old(bufferPackets)
                else
                  r == Ok((id, pub)) && Sent([PublishOut(id, pub)])
                  && session == old(session).(aliases := es, unacked := old(session.unacked) + if id != 0 then [(id, pub)] else [])
                  && sendQuota == old(sendQuota) - if id != 0 then 1 else 0
    {
      var qos := req.qos;
      var id := if qos == AtMostOnceDelivery then 0 else req.packetId;
      var step := PublishAliases(session.aliases, req, server.topicAliasMaximum);
      if step.None? {
        return Err("empty topic name");
      }
      var (es, topic, alias) := step.value;
      session := session.(aliases := es);
      var refusal := BuildRefusal(qos, topic, alias, server);
      if refusal.Some? {
        return Err(refusal.value);
      }
      var pub := Pub(qos, topic, alias, false);
      QueueOrSend(id, pub);
      return Ok((id, pub));
    }

    // ----------------------------------------------------------- PUBLISH

    /** The delivery loop of `HandlePublishPacket`, as `DispatchAll` says; `completed` is false when a filter check threw. */
    method DeliverMessages(msgs: seq<AppMessage>) returns (completed: bool)
      modifies this`serverAliases, this`events
      ensures var d := DispatchAll(msgs, session.received, subscriptions, old(serverAliases));
              serverAliases == d.aliases && events == old(events) + d.events && completed == d.completed
    {
      ghost var d0 := DispatchAll(msgs, session.received, subscriptions, serverAliases);
      ghost var done: seq<Event> := [];
      assert Dispatching(msgs, session.received, subscriptions, serverAliases, done, d0);
      var i := 0;
      while i < |msgs|
        invariant 0 <= i <= |msgs|
        invariant events == old(events) + done
        invariant Dispatching(msgs[i..], session.received, subscriptions, serverAliases, done, d0)
      {
        var m := msgs[i];
        assert msgs[i..][0] == m && msgs[i..][1..] == msgs[i + 1..];
        if Duplicate(m, session.received) {
          DispatchingDone(msgs[i..], session.received, subscriptions, serverAliases, done, d0);
          return true;
        }
        var topic := ResolvedTopic(m, serverAliases);
        var evs := Deliver(m, topic, subscriptions);
        if evs.None? {
          DispatchingDone(msgs[i..], session.received, subscriptions, serverAliases, done, d0);
          serverAliases := AliasesAfter(m, serverAliases);
          return false;
        }
        DispatchingStep(msgs[i..], session.received, subscriptions, serverAliases, done, d0);
        serverAliases := AliasesAfter(m, serverAliases);
        events := events + evs.value + [MessageRaised(m)];
        done := done + evs.value + [MessageRaised(m)];
        i := i + 1;
      }
      DispatchingDone(msgs[i..], session.received, subscriptions, serverAliases, done, d0);
      return true;
    }

    /**
     * The acknowledgement step of `HandlePublishPacket` for its first
     * message: a PUBACK for QoS 1; for QoS 2 the identifier becomes
     * received, the client fails with Receive Maximum exceeded when the
     * received identifiers reach its Receive Maximum, and a PUBREC follows.
     */
    method AcknowledgePublish(m: AppMessage)
      requires Valid() && bufferPackets > 0
      modifies this`state, this`events, this`session, this`bufferPackets, this`outgoing, this`wire
      ensures Valid() && bufferPackets == old(bufferPackets) && wire == old(wire)
      ensures var exceeded := Exceeded(m, old(session.received), clientReceiveMaximum);
              var code := DisconnectCodeOf(ReceiveMaximumExceeded);
              session == old(session).(received := ReceivedAfter(m, old(session.received)),
                                       queued := if exceeded && Disconnectable(old(state)) then [] else old(session.queued))
              && state == (if exceeded then Disconnected else old(state))
              && events == old(events) + (if exceeded then BeginDisconnectEvents(old(state), quitting)
                                                           + ErrorEvents(AfterBeginDisconnect(old(state), quitting), code) else [])
              && outgoing == old(outgoing) + (if exceeded then DisconnectPackets(old(state), isV5, code) else []) + AckPackets(m)
    {
      if m.qos == AtLeastOnceDelivery {
        Send(PubAckOut(m.packetId));
      } else if m.qos == ExactlyOnceDelivery {
        ReceiveExactlyOnce(m.packetId);
      }
    }

    /**
     * The QoS 2 branch of the acknowledgement: the identifier becomes
     * received, Receive Maximum exceeded is an error when the received
     * identifiers, counted in 16 bits, reach the client's Receive Maximum,
     * and a PUBREC is sent.
     */
    method ReceiveExactlyOnce(id: UInt16)
      requires Valid() && bufferPackets > 0
      modifies this`state, this`events, this`session, this`bufferPackets, this`outgoing, this`wire
      ensures Valid() && bufferPackets == old(bufferPackets) && wire == old(wire)
      ensures var received := old(session.received) + {id};
              var code := DisconnectCodeOf(ReceiveMaximumExceeded);
              if |received| % 0x1_0000 >= clientReceiveMaximum then
                session == old(session).(received := received,
                                         queued := if Disconnectable(old(state)) then [] else old(session.queued))
                && state == Disconnected
                && events == old(events) + BeginDisconnectEvents(old(state), quitting)
                                         + ErrorEvents(AfterBeginDisconnect(old(state), quitting), code)
                && outgoing == old(outgoing) + DisconnectPackets(old(state), isV5, code) + [PubRecOut(id)]
              else
                session == old(session).(received := received) && state == old(state) && events == old(events)
                && outgoing == old(outgoing) + [PubRecOut(id)]
    {
      ghost var o0 := outgoing;
      session := session.(received := session.received + {id});
      if |session.received| % 0x1_0000 >= clientReceiveMaximum {
        MQTTError(ReceiveMaximumExceeded);
        ghost var o1 := outgoing;
        Send(PubRecOut(id));
        assert outgoing == o1 + [PubRecOut(id)];
      } else {
        Send(PubRecOut(id));
        assert outgoing == o0 + [PubRecOut(id)];
      }
    }

    /**
     * `HandlePublishPacket`: the delivery loop, then, when it did not
     * throw and there was a message, the acknowledgement of the first one.
     */
    method HandlePublish(msgs: seq<AppMessage>)
      requires Valid() && bufferPackets > 0
      modifies this`serverAliases, this`state, this`events, this`session, this`bufferPackets, this`outgoing, this`wire
      ensures Valid() && bufferPackets == old(bufferPackets) && wire == old(wire)
      ensures var d := DispatchAll(msgs, old(session.received), subscriptions, old(serverAliases));
              serverAliases == d.aliases
              && if d.completed && msgs != [] then
                   var m := msgs[0];
                   var exceeded := Exceeded(m, old(session.received), clientReceiveMaximum);
                   var code := DisconnectCodeOf(ReceiveMaximumExceeded);
                   session == old(session).(received := ReceivedAfter(m, old(session.received)),
                                            queued := if exceeded && Disconnectable(old(state)) then [] else old(session.queued))
                   && state == (if exceeded then Disconnected else old(state))
                   && events == old(events) + d.events
                                + (if exceeded then BeginDisconnectEvents(old(state), quitting)
                                                    + ErrorEvents(AfterBeginDisconnect(old(state), quitting), code) else [])
                   && outgoing == old(outgoing) + (if exceeded then DisconnectPackets(old(state), isV5, code) else []) + AckPackets(m)
                 else
                   session == old(session) && state == old(state) && events == old(events) + d.events && outgoing == old(outgoing)
    {
      var completed := DeliverMessages(msgs);
      if completed && msgs != [] {
        AcknowledgePublish(msgs[0]);
      }
    }

    // ------------------------------------------------------------ CONNACK

    /** Packets handed to `Send` one after another, inside a packet buffer. */
    method SendAll(ps: seq<OutPacket>)
      requires Valid() && bufferPackets > 0
      modifies this`bufferPackets, this`outgoing, this`wire
      ensures Valid() && bufferPackets == old(bufferPackets) && wire == old(wire)
      ensures outgoing == old(outgoing) + ps
    {
      var i := 0;
      while i < |ps|
        invariant 0 <= i <= |ps|
        invariant Valid() && bufferPackets == old(bufferPackets) && wire == old(wire)
        invariant outgoing == old(outgoing) + ps[..i]
      {
        Send(ps[i]);
        assert ps[..i + 1] == ps[..i] + [ps[i]];
        i := i + 1;
      }
      assert ps[..i] == ps;
    }

    /** Takes `spent` from the send quota, which holds as much. */
    method SpendQuota(spent: nat)
      requires Valid() && spent <= sendQuota
      modifies this`sendQuota
      ensures Valid() && sendQuota == old(sendQuota) - spent
    {
      sendQuota := sendQuota - spent as UInt16;
    }

    /**
     * `MessageDeliveryRetry`: the unacknowledged packets resent while there
     * is quota, then a PUBREL for every released identifier.
     */
    method MessageDeliveryRetry()
      requires Valid() && bufferPackets > 0
      modifies this`sendQuota, this`bufferPackets, this`outgoing, this`wire
      ensures Valid() && bufferPackets == old(bufferPackets) && wire == old(wire)
      ensures sendQuota == old(sendQuota) - Spent(old(sendQuota), |session.unacked|)
      ensures outgoing == old(outgoing) + Retry(old(sendQuota), session)
    {
      ghost var q0, o0 := sendQuota, outgoing;
      var resends := ResendUnacknowledged();
      var releases := ResendReleases();
      RetrySplit(q0, session, resends, releases, o0);
    }

    /** The resend pass of `MessageDeliveryRetry`: the unacknowledged packets while there is quota. */
    method ResendUnacknowledged() returns (resends: seq<OutPacket>)
      requires Valid() && bufferPackets > 0
      modifies this`sendQuota, this`bufferPackets, this`outgoing, this`wire
      ensures Valid() && bufferPackets == old(bufferPackets) && wire == old(wire)
      ensures resends == Resends(session.unacked[..Spent(old(sendQuota), |session.unacked|)], session.aliases)
      ensures sendQuota == old(sendQuota) - Spent(old(sendQuota), |session.unacked|)
      ensures outgoing == old(outgoing) + resends
    {
      var spent;
      resends, spent := ResendPass(session.unacked, sendQuota, session.aliases);
      SpendQuota(spent);
      SendAll(resends);
    }

    /** The release pass of `MessageDeliveryRetry`: a PUBREL for every released identifier. */
    method ResendReleases() returns (releases: seq<OutPacket>)
      requires Valid() && bufferPackets > 0
      modifies this`bufferPackets, this`outgoing, this`wire
      ensures Valid() && bufferPackets == old(bufferPackets) && wire == old(wire)
      ensures releases == Releases(ReleasedOrder(session.released))
      ensures outgoing == old(outgoing) + releases
    {
      releases := ReleasePass(session.released);
      SendAll(releases);
    }

    /**
     * `HandleConnectAckPacket`: the server's options are kept.  On success
     * the quota and its maximum start at the initial quota [MQTT-4.9.0-1], a
     * session stored under an assigned client identifier is taken, the
     * queue is dropped, the session's state is dropped when the server has
     * none (and resent when it has [MQTT-4.4.0-1]), the topic aliases are
     * dropped [MQTT-3.3.2-7], and the client is connected.  Any other reason
     * code is an error with its disconnect reason.
     */
    method HandleConnectAck(ack: ServerConnectAcks.ServerConnectAck, stored: Session)
      requires Valid() && bufferPackets > 0
      modifies this`server, this`sendQuota, this`maxQuota, this`session, this`state, this`events,
               this`bufferPackets, this`outgoing, this`wire
      ensures Valid() && bufferPackets == old(bufferPackets) && wire == old(wire) && server == ack
      ensures old(events) <= events && (state == Connected || state == Disconnected)
      ensures ack.reasonCode == Success ==>
                var q := InitialQuota(ack.receiveMaximum);
                var loaded := if ack.assignedClientIdentifier.Some? && ack.assignedClientIdentifier.value != [] then stored else old(session);
                maxQuota == q && state == Connected
                && events == old(events) + (if old(state) != Connected then [StateChanged(old(state), Connected)] else [])
                             + [ConnectedRaised, ConnectAckRaised(Success)]
                && if ack.sessionPresent then
                     session == loaded.(queued := [], aliases := [])
                     && sendQuota == q - Spent(q, |loaded.unacked|) && outgoing == old(outgoing) + Retry(q, loaded)
                   else
                     session == Session([], [], {}, {}, []) && sendQuota == q && outgoing == old(outgoing)
      ensures ack.reasonCode != Success ==>
                sendQuota == old(sendQuota) && maxQuota == old(maxQuota) && session == old(session) && outgoing == old(outgoing)
                && state == Disconnected && events == old(events) + [ConnectAckRaised(ack.reasonCode)] + ErrorEvents(old(state), SwitchCode(ack.reasonCode))
    {
      server := ack;
      if ack.reasonCode == Success {
        var loaded := if ack.assignedClientIdentifier.Some? && ack.assignedClientIdentifier.value != [] then stored else session;
        StartSession(InitialQuota(ack.receiveMaximum), loaded, ack.sessionPresent);
        events := events + [ConnectAckRaised(ack.reasonCode)];
      } else {
        events := events + [ConnectAckRaised(ack.reasonCode)];
        Error(SwitchCode(ack.reasonCode));
      }
    }

    /**
     * The success half of `HandleConnectAckPacket`: the quota and its
     * maximum start at `q`, the queue is dropped, the session's state is
     * dropped when the server has none and resent when it has, the topic
     * aliases are dropped, and the client is connected.
     */
    method StartSession(q: UInt16, loaded: Session, sessionPresent: bool)
      requires Valid() && bufferPackets > 0
      modifies this`sendQuota, this`maxQuota, this`session, this`state, this`events,
               this`bufferPackets, this`outgoing, this`wire
      ensures Valid() && bufferPackets == old(bufferPackets) && wire == old(wire)
      ensures maxQuota == q && state == Connected
      ensures events == old(events) + (if old(state) != Connected then [StateChanged(old(state), Connected)] else []) + [ConnectedRaised]
      ensures if sessionPresent then
                session == loaded.(queued := [], aliases := [])
                && sendQuota == q - Spent(q, |loaded.unacked|) && outgoing == old(outgoing) + Retry(q, loaded)
              else
                session == Session([], [], {}, {}, []) && sendQuota == q && outgoing == old(outgoing)
    {
      sendQuota, maxQuota := q, q;
      session := loaded.(queued := []);
      if !sessionPresent {
        session := session.(received := {}, released := {}, unacked := []);
      } else {
        MessageDeliveryRetry();
        assert Retry(q, session) == Retry(q, loaded);
      }
      session := session.(aliases := []);
      SetState(Connected);
      events := events + [ConnectedRaised];
    }

    // ---------------------------------------------------------- heartbeat

    /** One incoming packet handed to its handler; SUBACK, PINGRESP, AUTH and unknown packets are not part of this model. */
    method Dispatch(p: Incoming)
      requires Valid() && bufferPackets > 0 && Rank(state) < 4
      modifies this`server, this`sendQuota, this`maxQuota, this`session, this`state, this`events, this`serverAliases,
               this`subscriptions, this`pendingUnsubscriptions, this`bufferPackets, this`outgoing, this`wire
      ensures Valid() && bufferPackets == old(bufferPackets) && wire == old(wire)
      ensures Rank(state) >= Rank(old(state))
      ensures old(events) <= events
    {
      if p.ConnectAckIn? {
        ConnectAcknowledged(p.ack, p.stored);
      } else {
        DispatchDelivery(p);
      }
    }

    /** A CONNACK handed to its handler: the client ends connected or disconnected. */
    method ConnectAcknowledged(ack: ServerConnectAcks.ServerConnectAck, stored: Session)
      requires Valid() && bufferPackets > 0
      modifies this`server, this`sendQuota, this`maxQuota, this`session, this`state, this`events,
               this`bufferPackets, this`outgoing, this`wire
      ensures Valid() && bufferPackets == old(bufferPackets) && wire == old(wire)
      ensures state == Connected || state == Disconnected
      ensures old(events) <= events
    {
      HandleConnectAck(ack, stored);
    }

    /** DISCONNECT, UNSUBACK and PUBLISH each handed to its handler, and the acknowledgements to theirs. */
    method DispatchDelivery(p: Incoming)
      requires Valid() && bufferPackets > 0
      modifies this`sendQuota, this`session, this`state, this`events, this`serverAliases,
               this`subscriptions, this`pendingUnsubscriptions, this`bufferPackets, this`outgoing, this`wire
      ensures Valid() && bufferPackets == old(bufferPackets) && wire == old(wire)
      ensures Rank(state) >= Rank(old(state))
      ensures old(events) <= events
    {
      match p
      case DisconnectIn(code) => HandleDisconnect(code);
      case UnsubscribeAckIn(id, codes) => HandleUnsubscribeAck(id, codes);
      case PublishIn(msgs) => HandlePublish(msgs);
      case _ => DispatchAcknowledgement(p);
    }

    /** The acknowledgements of the QoS 1 and QoS 2 handshakes, each handed to its handler. */
    method DispatchAcknowledgement(p: Incoming)
      requires Valid() && bufferPackets > 0
      modifies this`sendQuota, this`session, this`state, this`events, this`bufferPackets, this`outgoing, this`wire
      ensures Valid() && bufferPackets == old(bufferPackets) && wire == old(wire)
      ensures Rank(state) >= Rank(old(state))
      ensures old(events) <= events
    {
      match p
      case PublishReceivedIn(id, reason) => HandlePublishReceived(id, reason);
      case PublishReleaseIn(id) => HandlePublishRelease(id);
      case PublishCompleteIn(id) => HandlePublishComplete(id);
      case PublishAckIn(id) => HandlePublishAck(id);
      case _ =>
    }

    /**
     * The incoming packets of one `OnHeartbeatUpdate`, in a packet buffer:
     * each is handled unless the client is disconnecting or disconnected.
     * The client's state only moves forward, and once it is disconnecting
     * or disconnected nothing the broker sends changes the client.
     */
    method ProcessIncoming(packets: seq<Incoming>)
      requires Valid()
      modifies this`server, this`sendQuota, this`maxQuota, this`session, this`state, this`events, this`serverAliases,
               this`subscriptions, this`pendingUnsubscriptions, this`bufferPackets, this`outgoing, this`wire
      ensures Valid() && bufferPackets == old(bufferPackets)
      ensures Rank(state) >= Rank(old(state))
      ensures old(events) <= events
      ensures Rank(old(state)) >= 4 ==>
                state == old(state) && events == old(events) && session == old(session) && sendQuota == old(sendQuota)
                && maxQuota == old(maxQuota) && server == old(server) && serverAliases == old(serverAliases)
                && subscriptions == old(subscriptions) && pendingUnsubscriptions == old(pendingUnsubscriptions)
                && outgoing == old(outgoing) && wire == old(wire)
    {
      BeginPacketBuffer();
      var i := 0;
      while i < |packets|
        invariant 0 <= i <= |packets|
        invariant Valid() && bufferPackets == old(bufferPackets) + 1
        invariant Rank(state) >= Rank(old(state)) && old(events) <= events
        invariant Rank(old(state)) >= 4 ==>
                    state == old(state) && events == old(events) && session == old(session) && sendQuota == old(sendQuota)
                    && maxQuota == old(maxQuota) && server == old(server) && serverAliases == old(serverAliases)
                    && subscriptions == old(subscriptions) && pendingUnsubscriptions == old(pendingUnsubscriptions)
                    && outgoing == old(outgoing) && wire == old(wire)
      {
        if Rank(state) < 4 {
          Dispatch(packets[i]);
        }
        i := i + 1;
      }
      EndPacketBuffer();
    }
  }
}
