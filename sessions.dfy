/** What each command handler does to the state of one client and to the
    broker's topic table, as functions on values. The imperative handlers
    in module Handlers are proved to move a `Client` object exactly as these
    functions say; the properties of the protocol are lemmas here. */
module Sessions {
  import opened Mqtt
  import opened Topics

  /** The state of one `struct client` that the handlers read and write.
      `out` is the filled part of the write buffer, wbuf[..towrite]; the
      three tables hold the `in_use` flag of each inflight slot. */
  datatype Session = Session(
    out: seq<byte>,
    iMsgs: seq<bool>,
    iAcks: seq<bool>,
    inIAcks: seq<bool>,
    hasInflight: bool,
    subscriptions: seq<TopicName>,
    outgoing: seq<Publish>,
    cleanSession: bool,
    online: bool,
    hasLwt: bool,
    lwtMsg: Publish,
    clientId: seq<char>)

  /** What a handler returns to the server loop: REPLY, NOREPLY, a refusing
      CONNACK return code, or -ERRCLIENTDC. */
  datatype Outcome = Reply | NoReply | Refused(rc: byte) | ClientDisconnect

  /** A handler's effect: the client's new state, the new topic table and
      the value returned. */
  datatype Step<C> = Step(session: Session, topics: map<TopicName, Topic<C>>, outcome: Outcome)

  /** Encoder for the variable-length packets (PUBLISH, SUBACK). */
  type Packer = Packet -> seq<byte>

  predicate HasSlot(s: Session, id: PktId)
  {
    id < |s.iMsgs| && id < |s.iAcks| && id < |s.inIAcks|
  }

  /** set_payload_connack: one CONNACK with session-present 0. */
  function WithConnack(s: Session, rc: byte): Session
  {
    s.(out := s.out + ConnackBytes(false, rc))
  }

  // ---------------------------------------------------------------------
  // Acknowledgements and PINGREQ

  /** PUBACK or PUBCOMP from the client: the outgoing message with this
      identifier is complete; no reply. */
  function AckCompleted(s: Session, id: PktId): (r: Session)
    requires HasSlot(s, id)
    ensures |r.iMsgs| == |s.iMsgs| && |r.iAcks| == |s.iAcks|
    ensures !r.iMsgs[id] && !r.iAcks[id] && !r.hasInflight
    ensures forall j :: 0 <= j < |s.iMsgs| && j != id ==> r.iMsgs[j] == s.iMsgs[j]
    ensures forall j :: 0 <= j < |s.iAcks| && j != id ==> r.iAcks[j] == s.iAcks[j]
    ensures r.(iMsgs := s.iMsgs, iAcks := s.iAcks, hasInflight := s.hasInflight) == s
  {
    s.(iMsgs := s.iMsgs[id := false], iAcks := s.iAcks[id := false], hasInflight := false)
  }

  /** PUBREC from the client: answer with PUBREL. */
  function PubrecStep(s: Session, id: PktId): Session
  {
    s.(out := s.out + AckBytes(Pubrel, id))
  }

  /** PUBREL from the client: answer with PUBCOMP, release the slot. */
  function PubrelStep(s: Session, id: PktId): Session
    requires id < |s.inIAcks|
  {
    s.(out := s.out + AckBytes(Pubcomp, id), inIAcks := s.inIAcks[id := false], hasInflight := false)
  }

  function PingreqStep(s: Session): Session
  {
    s.(out := s.out + PingrespBytes())
  }

  /** The reply of PUBREC and PUBREL is the one acknowledgement expected,
      carrying the same identifier. */
  lemma AckRepliesDecode(s: Session, id: PktId)
    requires id < |s.inIAcks|
    ensures |PubrecStep(s, id).out| == |s.out| + MQTT_ACK_LEN
    ensures DecodeAck(PubrecStep(s, id).out[|s.out|..]) == Some((Pubrel, id))
    ensures |PubrelStep(s, id).out| == |s.out| + MQTT_ACK_LEN
    ensures DecodeAck(PubrelStep(s, id).out[|s.out|..]) == Some((Pubcomp, id))
    ensures !PubrelStep(s, id).inIAcks[id] && !PubrelStep(s, id).hasInflight
  {
    assert PubrecStep(s, id).out[|s.out|..] == AckBytes(Pubrel, id);
    assert PubrelStep(s, id).out[|s.out|..] == AckBytes(Pubcomp, id);
    AckRoundTrip(Pubrel, id);
    AckRoundTrip(Pubcomp, id);
  }

  // ---------------------------------------------------------------------
  // PUBLISH

  /** The QoS a subscriber receives: the lower of the two. */
  function Forwarded(pubQos: QosBits, subQos: byte): (q: QosBits)
    ensures q <= pubQos && q <= subQos
    ensures q == pubQos || q == subQos
  {
    if pubQos >= subQos then subQos else pubQos
  }

  /** The copy of `p` an online subscriber is sent: downgraded QoS, and
      the identifier `mid` when that QoS needs one, 0 otherwise. */
  function Outbound(p: Publish, subQos: byte, mid: PktId): Publish
  {
    var q := Forwarded(p.qos, subQos);
    p.(qos := q, pktId := if q > AT_MOST_ONCE then mid else 0)
  }

  /** The copy queued for an offline subscriber: downgraded QoS and no
      identifier yet. */
  function Queued(p: Publish, subQos: byte): Publish
  {
    p.(qos := Forwarded(p.qos, subQos), pktId := 0)
  }

  predicate CanDeliver(s: Session, p: Publish, subQos: byte, mid: PktId)
  {
    s.online && Forwarded(p.qos, subQos) > AT_MOST_ONCE ==> HasSlot(s, mid)
  }

  /** One turn of the subscriber loop of publish_message, for a subscriber
      with QoS `subQos` whose next free identifier is `mid`. */
  function Deliver(s: Session, p: Publish, subQos: byte, mid: PktId, pack: Packer): Session
    requires CanDeliver(s, p, subQos, mid)
  {
    var q := Forwarded(p.qos, subQos);
    if !s.online then
      if s.cleanSession then s else s.(outgoing := s.outgoing + [Queued(p, subQos)])
    else if q > AT_MOST_ONCE then
      s.(iMsgs := s.iMsgs[mid := true], iAcks := s.iAcks[mid := true], hasInflight := true,
         out := s.out + pack(PublishPacket(Outbound(p, subQos, mid))))
    else
      s.(out := s.out + pack(PublishPacket(Outbound(p, subQos, mid))))
  }

  /** An offline subscriber is written nothing; the message is queued only
      for a persistent session. An online one gets exactly the downgraded
      packet, and a slot is taken when that packet needs acknowledging. */
  lemma DeliverRule(s: Session, p: Publish, subQos: byte, mid: PktId, pack: Packer)
    requires CanDeliver(s, p, subQos, mid)
    ensures var r := Deliver(s, p, subQos, mid, pack);
      && (!s.online ==> r.out == s.out && r.iMsgs == s.iMsgs && r.iAcks == s.iAcks)
      && (!s.online && s.cleanSession ==> r.outgoing == s.outgoing)
      && (!s.online && !s.cleanSession ==> r.outgoing == s.outgoing + [Queued(p, subQos)])
      && (s.online ==> r.outgoing == s.outgoing && r.out == s.out + pack(PublishPacket(Outbound(p, subQos, mid))))
      && (s.online && Forwarded(p.qos, subQos) > AT_MOST_ONCE ==> r.iMsgs[mid] && r.iAcks[mid] && r.hasInflight)
      && (Forwarded(p.qos, subQos) == AT_MOST_ONCE ==> r.iMsgs == s.iMsgs && r.iAcks == s.iAcks)
      && Outbound(p, subQos, mid).qos <= p.qos && Outbound(p, subQos, mid).qos <= subQos
      && (Outbound(p, subQos, mid).pktId == 0 <==> Forwarded(p.qos, subQos) == AT_MOST_ONCE || mid == 0)
  {
  }

  /** The publisher's side: nothing for QoS 0, PUBREC and a taken
      incoming slot for QoS 2, PUBACK otherwise (the reserved QoS 3 included). */
  function PublishReply(s: Session, qos: QosBits, id: PktId): Session
    requires qos == EXACTLY_ONCE ==> id < |s.inIAcks|
  {
    if qos == AT_MOST_ONCE then s
    else if qos == EXACTLY_ONCE then
      s.(inIAcks := s.inIAcks[id := true], hasInflight := true, out := s.out + AckBytes(Pubrec, id))
    else s.(out := s.out + AckBytes(Puback, id))
  }

  function PublishOutcome(qos: QosBits): (r: Outcome)
    ensures r == NoReply <==> qos == AT_MOST_ONCE
    ensures r != NoReply ==> r == Reply
  {
    if qos == AT_MOST_ONCE then NoReply else Reply
  }

  lemma PublishReplyByQos(s: Session, qos: QosBits, id: PktId)
    requires qos == EXACTLY_ONCE ==> id < |s.inIAcks|
    ensures var r := PublishReply(s, qos, id);
      && (qos == AT_MOST_ONCE ==> r == s)
      && (qos != AT_MOST_ONCE ==> |r.out| == |s.out| + MQTT_ACK_LEN && r.out[..|s.out|] == s.out)
      && (qos == EXACTLY_ONCE ==> DecodeAck(r.out[|s.out|..]) == Some((Pubrec, id)) && r.inIAcks[id] && r.hasInflight)
      && (qos != AT_MOST_ONCE && qos != EXACTLY_ONCE ==> DecodeAck(r.out[|s.out|..]) == Some((Puback, id)) && r.inIAcks == s.inIAcks)
  {
    var r := PublishReply(s, qos, id);
    if qos == EXACTLY_ONCE {
      assert r.out[|s.out|..] == AckBytes(Pubrec, id);
      AckRoundTrip(Pubrec, id);
    } else if qos != AT_MOST_ONCE {
      assert r.out[|s.out|..] == AckBytes(Puback, id);
      AckRoundTrip(Puback, id);
    }
  }

  /** The publisher's own state after the delivery loop: changed only when
      it is itself a subscriber of the topic. */
  function SelfAfter<C(==)>(s: Session, c: C, subs: seq<Subscriber<C>>, p: Publish, mids: seq<PktId>, pack: Packer): Session
    requires |mids| == |subs|
    requires Position(subs, c).Some? ==>
      CanDeliver(s, p, subs[Position(subs, c).value].qos, mids[Position(subs, c).value])
  {
    match Position(subs, c)
    case None => s
    case Some(k) => Deliver(s, p, subs[k].qos, mids[k], pack)
  }

  /** The topic table after a PUBLISH: the topic exists, and a set retain
      bit replaces its retained message with the packed PUBLISH. */
  function PublishTopics<C>(topics: map<TopicName, Topic<C>>, p: Publish, pack: Packer): map<TopicName, Topic<C>>
  {
    var name := PublishName(p.topic);
    var t := GetOrCreate(topics, name);
    if p.retain then t[name := t[name].(retained := Some(pack(PublishPacket(p))))] else t
  }

  /** After a PUBLISH the topic exists under its normalised name with the
      subscribers it had; other topics are untouched; with the retain bit
      the retained message is the packed PUBLISH as received, without it
      an existing topic is left as it was. */
  lemma PublishTopicsSpec<C>(topics: map<TopicName, Topic<C>>, p: Publish, pack: Packer)
    ensures var r := PublishTopics(topics, p, pack);
      && r.Keys == topics.Keys + {PublishName(p.topic)}
      && (forall k :: k in topics && k != PublishName(p.topic) ==> r[k] == topics[k])
      && r[PublishName(p.topic)].subscribers == SubscribersOf(topics, PublishName(p.topic))
      && (p.retain ==> r[PublishName(p.topic)].retained == Some(pack(PublishPacket(p))))
      && (!p.retain && PublishName(p.topic) in topics ==> r == topics)
  {
  }

  // ---------------------------------------------------------------------
  // CONNECT

  /** The broker's configuration and the password check it calls. */
  datatype AuthConfig = AuthConfig(
    allowAnonymous: bool,
    authentications: map<seq<char>, seq<char>>,
    checkPasswd: (seq<char>, seq<char>) -> bool)

  /** Anonymous access, or a username and password both flagged, a stored
      salt for the username, and a password that matches it. */
  predicate Authenticated(cfg: AuthConfig, c: Connect)
  {
    || cfg.allowAnonymous
    || (&& c.flags.username && c.flags.password
        && c.username in cfg.authentications
        && cfg.checkPasswd(c.password, cfg.authentications[c.username]))
  }

  datatype Verdict = BadCredentials | NotAuthorized | Accepted

  /** The two checks of a CONNECT, credentials first. */
  function ConnectVerdict(cfg: AuthConfig, c: Connect): (v: Verdict)
    ensures v == BadCredentials <==> !Authenticated(cfg, c)
    ensures v == NotAuthorized <==> Authenticated(cfg, c) && c.clientId == [] && !c.flags.cleanSession
  {
    if !Authenticated(cfg, c) then BadCredentials
    else if c.clientId == [] && !c.flags.cleanSession then NotAuthorized
    else Accepted
  }

  /** What the CONNECT handler learns from collaborators outside this
      model: the identifier generate_random_id writes, and the value the
      double-CONNECT comparison (a strncmp) returns. */
  datatype ConnectOracle = ConnectOracle(generatedId: seq<char>, idCompare: int)

  /** The queued messages, packed one after the other. */
  function PackAll(msgs: seq<Publish>, pack: Packer): (r: seq<byte>)
    ensures msgs == [] ==> r == []
  {
    if msgs == [] then []
    else PackAll(msgs[..|msgs| - 1], pack) + pack(PublishPacket(msgs[|msgs| - 1]))
  }

  /** Sending the queue one message at a time only ever extends what the
      whole queue produces. */
  lemma {:induction false} PackAllPrefix(msgs: seq<Publish>, i: nat, pack: Packer)
    requires i <= |msgs|
    ensures PackAll(msgs[..i], pack) <= PackAll(msgs, pack)
    decreases |msgs|
  {
    if i < |msgs| {
      var init := msgs[..|msgs| - 1];
      assert init[..i] == msgs[..i];
      PackAllPrefix(init, i, pack);
    } else {
      assert msgs[..i] == msgs;
    }
  }

  /** One more message of the queue appends its packed bytes, and stays
      within what the whole queue produces. */
  lemma PackAllNext(msgs: seq<Publish>, i: nat, pack: Packer)
    requires i < |msgs|
    ensures PackAll(msgs[..i + 1], pack) == PackAll(msgs[..i], pack) + pack(PublishPacket(msgs[i]))
    ensures |PackAll(msgs[..i + 1], pack)| <= |PackAll(msgs, pack)|
  {
    assert msgs[..i + 1][..i] == msgs[..i];
    PackAllPrefix(msgs, i + 1, pack);
  }

  /** The last-will PUBLISH kept for the client. */
  function WillMessage(c: Connect): Publish
  {
    Publish(false, c.flags.willQos, false, c.willTopic, 0, c.willMessage)
  }

  /** The will topic exists afterwards; with will-retain it holds the
      packed will message as retained message. */
  function WithWillTopic<C>(topics: map<TopicName, Topic<C>>, c: Connect, pack: Packer): map<TopicName, Topic<C>>
  {
    var t := GetOrCreate(topics, c.willTopic);
    if c.flags.willRetain then
      t[c.willTopic := t[c.willTopic].(retained := Some(pack(PublishPacket(WillMessage(c)))))]
    else t
  }

  /** The identifier the client ends up with. */
  function AssignedId(c: Connect, o: ConnectOracle): seq<char>
  {
    if c.clientId == [] then o.generatedId else c.clientId
  }

  /** First half of the accept path: the identifier and the last will. */
  function Identified(s: Session, c: Connect, o: ConnectOracle): (r: Session)
    ensures r.out == s.out && r.subscriptions == s.subscriptions && r.outgoing == s.outgoing
  {
    var s1 := s.(clientId := AssignedId(c, o));
    if c.flags.will then s1.(hasLwt := true, lwtMsg := WillMessage(c)) else s1
  }

  /** Second half: the session kind, and a clean start when asked. */
  function Started(s: Session, c: Connect): (r: Session)
    ensures r.out == s.out && r.clientId == s.clientId && r.hasLwt == s.hasLwt
  {
    var s1 := s.(cleanSession := c.flags.cleanSession);
    if c.flags.cleanSession then s1.(subscriptions := [], outgoing := []) else s1
  }

  /** The accept path after the flush and the double-CONNECT test. */
  function Accept(s: Session, c: Connect, o: ConnectOracle): (r: Session)
    ensures r.out == s.out && r.online == s.online
    ensures r.clientId == (if c.clientId == [] then o.generatedId else c.clientId)
    ensures r.cleanSession == c.flags.cleanSession
    ensures c.flags.cleanSession ==> r.subscriptions == [] && r.outgoing == []
    ensures !c.flags.cleanSession ==> r.subscriptions == s.subscriptions && r.outgoing == s.outgoing
    ensures r.hasLwt == (c.flags.will || s.hasLwt)
  {
    Started(Identified(s, c, o), c)
  }

  /** A returning client with a persistent session is sent the messages
      queued while it was away, packed in queue order; the queue itself is
      kept. A new identifier or a clean session writes nothing. */
  function Flushed(s: Session, c: Connect, pack: Packer): (r: Session)
    ensures r.(out := s.out) == s
    ensures c.clientId != [] && !c.flags.cleanSession ==> r.out == s.out + PackAll(s.outgoing, pack)
    ensures c.clientId == [] || c.flags.cleanSession ==> r == s
  {
    if c.clientId != [] && !c.flags.cleanSession then s.(out := s.out + PackAll(s.outgoing, pack)) else s
  }

  /** connect_handler once both checks have passed: flush, then drop
      a second CONNECT or accept. */
  function Admitted<C>(s: Session, topics: map<TopicName, Topic<C>>, c: Connect, o: ConnectOracle, pack: Packer): Step<C>
  {
    AcceptOrDrop(Flushed(s, c, pack), topics, c, o, pack)
  }

  /** After the flush: a client already online that sends a second CONNECT
      is disconnected, any other is accepted. */
  function AcceptOrDrop<C>(s: Session, topics: map<TopicName, Topic<C>>, c: Connect, o: ConnectOracle, pack: Packer): Step<C>
  {
    if s.online && o.idCompare == 1 then Step(s, topics, ClientDisconnect)
    else
      Step(WithConnack(Accept(s, c, o), MQTT_CONNECTION_ACCEPTED),
           if c.flags.will then WithWillTopic(topics, c, pack) else topics,
           Reply)
  }

  /** connect_handler. */
  function ConnectStep<C>(s: Session, topics: map<TopicName, Topic<C>>, cfg: AuthConfig,
                          c: Connect, o: ConnectOracle, pack: Packer): Step<C>
  {
    match ConnectVerdict(cfg, c)
    case BadCredentials =>
      Step(WithConnack(s, MQTT_BAD_USERNAME_OR_PASSWORD), topics, Refused(MQTT_BAD_USERNAME_OR_PASSWORD))
    case NotAuthorized =>
      Step(WithConnack(s, MQTT_NOT_AUTHORIZED), topics, Refused(MQTT_NOT_AUTHORIZED))
    case Accepted => Admitted(s, topics, c, o, pack)
  }

  /** Without anonymous access, a CONNECT lacking the username or the
      password flag gets exactly one CONNACK 4 and changes nothing else,
      whatever its client identifier. */
  lemma ConnectMissingCredentials<C>(s: Session, topics: map<TopicName, Topic<C>>, cfg: AuthConfig,
                                     c: Connect, o: ConnectOracle, pack: Packer)
    requires !cfg.allowAnonymous && (!c.flags.username || !c.flags.password)
    ensures ConnectStep(s, topics, cfg, c, o, pack)
         == Step(s.(out := s.out + ConnackBytes(false, MQTT_BAD_USERNAME_OR_PASSWORD)),
                 topics, Refused(MQTT_BAD_USERNAME_OR_PASSWORD))
  {
  }

  /** An authenticated CONNECT with an empty identifier and a persistent
      session gets exactly one CONNACK 5 and changes nothing else. */
  lemma ConnectEmptyIdPersistent<C>(s: Session, topics: map<TopicName, Topic<C>>, cfg: AuthConfig,
                                    c: Connect, o: ConnectOracle, pack: Packer)
    requires Authenticated(cfg, c) && c.clientId == [] && !c.flags.cleanSession
    ensures ConnectStep(s, topics, cfg, c, o, pack)
         == Step(s.(out := s.out + ConnackBytes(false, MQTT_NOT_AUTHORIZED)),
                 topics, Refused(MQTT_NOT_AUTHORIZED))
  {
  }

  /** The return value of connect_handler, case by case, both ways. */
  lemma ConnectOutcomes<C>(s: Session, topics: map<TopicName, Topic<C>>, cfg: AuthConfig,
                           c: Connect, o: ConnectOracle, pack: Packer)
    ensures var r := ConnectStep(s, topics, cfg, c, o, pack).outcome;
      && (r == Refused(MQTT_BAD_USERNAME_OR_PASSWORD) <==> !Authenticated(cfg, c))
      && (r == Refused(MQTT_NOT_AUTHORIZED) <==>
            Authenticated(cfg, c) && c.clientId == [] && !c.flags.cleanSession)
      && (r == ClientDisconnect <==>
            ConnectVerdict(cfg, c) == Accepted && s.online && o.idCompare == 1)
      && (r == Reply <==>
            ConnectVerdict(cfg, c) == Accepted && !(s.online && o.idCompare == 1))
  {
  }

  /** A stream that ends in a CONNACK reads back, from its last four
      bytes, the flags and return code written. */
  lemma ConnackAtEnd(prefix: seq<byte>, rc: byte)
    ensures var o := prefix + ConnackBytes(false, rc);
      |o| >= MQTT_ACK_LEN && DecodeConnack(o[|o| - MQTT_ACK_LEN..]) == Some((false, rc))
  {
    var o := prefix + ConnackBytes(false, rc);
    assert o[|o| - MQTT_ACK_LEN..] == ConnackBytes(false, rc);
    ConnackRoundTrip(false, rc);
  }

  /** Unless the client is dropped, a CONNECT ends with one CONNACK whose
      return code is the outcome's (0 on REPLY) and session-present 0;
      what was written before stays. */
  lemma ConnectEndsWithConnack<C>(s: Session, topics: map<TopicName, Topic<C>>, cfg: AuthConfig,
                                  c: Connect, o: ConnectOracle, pack: Packer)
    ensures var r := ConnectStep(s, topics, cfg, c, o, pack);
      && s.out <= r.session.out
      && (r.outcome != ClientDisconnect ==>
            |r.session.out| >= |s.out| + MQTT_ACK_LEN
            && DecodeConnack(r.session.out[|r.session.out| - MQTT_ACK_LEN..]) ==
                 Some((false, if r.outcome.Refused? then r.outcome.rc else MQTT_CONNECTION_ACCEPTED)))
  {
    var r := ConnectStep(s, topics, cfg, c, o, pack);
    var before := if ConnectVerdict(cfg, c) == Accepted then Flushed(s, c, pack) else s;
    if r.outcome != ClientDisconnect {
      var rc := if r.outcome.Refused? then r.outcome.rc else MQTT_CONNECTION_ACCEPTED;
      assert r.session.out == before.out + ConnackBytes(false, rc);
      ConnackAtEnd(before.out, rc);
    }
  }

  /** The accept path: identifier copied (generated when empty),
      clean-session stored, a clean session starts with no subscriptions
      and no queued messages, the CONNACK carries 0. A returning client
      with a persistent session is sent its queued messages first, so they
      precede the CONNACK; any other client gets the CONNACK alone. */
  lemma ConnectAccepted<C>(s: Session, topics: map<TopicName, Topic<C>>, cfg: AuthConfig,
                           c: Connect, o: ConnectOracle, pack: Packer)
    requires ConnectStep(s, topics, cfg, c, o, pack).outcome == Reply
    ensures var r := ConnectStep(s, topics, cfg, c, o, pack).session;
      && r.clientId == (if c.clientId == [] then o.generatedId else c.clientId)
      && (o.generatedId != [] ==> r.clientId != [])
      && r.cleanSession == c.flags.cleanSession
      && (c.flags.cleanSession ==> r.subscriptions == [] && r.outgoing == [])
      && (!c.flags.cleanSession ==> r.subscriptions == s.subscriptions && r.outgoing == s.outgoing)
      && r.hasLwt == (c.flags.will || s.hasLwt)
      && r.out[|r.out| - MQTT_ACK_LEN..] == ConnackBytes(false, MQTT_CONNECTION_ACCEPTED)
      && (c.clientId != [] && !c.flags.cleanSession ==>
            r.out == s.out + PackAll(s.outgoing, pack) + ConnackBytes(false, MQTT_CONNECTION_ACCEPTED))
      && (c.clientId == [] || c.flags.cleanSession ==>
            r.out == s.out + ConnackBytes(false, MQTT_CONNECTION_ACCEPTED))
      && r.iMsgs == s.iMsgs && r.iAcks == s.iAcks && r.inIAcks == s.inIAcks
  {
    assert ConnectVerdict(cfg, c) == Accepted;
    var flushed := Flushed(s, c, pack);
    var a := Accept(flushed, c, o);
    var r := ConnectStep(s, topics, cfg, c, o, pack).session;
    assert r == WithConnack(a, MQTT_CONNECTION_ACCEPTED);
    assert r.out[|r.out| - MQTT_ACK_LEN..] == ConnackBytes(false, MQTT_CONNECTION_ACCEPTED);
  }

  // ---------------------------------------------------------------------
  // SUBSCRIBE, UNSUBSCRIBE, DISCONNECT

  /** The running state of the subscribe loop: client, topic table and
      the return codes collected so far. */
  datatype SubState<C> = SubState(session: Session, topics: map<TopicName, Topic<C>>, rcs: seq<byte>)

  predicate NonEmptyFilters(ts: seq<Tuple>)
  {
    forall i :: 0 <= i < |ts| ==> |ts[i].topic| > 0
  }

  /** The `wildcard` flag after the loop has seen `ts`: set by a "/#"
      filter and never reset. */
  function Sticky(ts: seq<Tuple>): bool
  {
    if ts == [] then false else Sticky(ts[..|ts| - 1]) || IsWildcard(ts[|ts| - 1].topic)
  }

  /** Once one filter is a wildcard, every later filter of the same
      SUBSCRIBE is treated as one too. */
  lemma {:induction false} StickyIsAny(ts: seq<Tuple>)
    ensures Sticky(ts) <==> exists j :: 0 <= j < |ts| && IsWildcard(ts[j].topic)
  {
    if ts != [] {
      var init := ts[..|ts| - 1];
      StickyIsAny(init);
      if exists j :: 0 <= j < |init| && IsWildcard(init[j].topic) {
        var j :| 0 <= j < |init| && IsWildcard(init[j].topic);
        assert ts[j] == init[j];
      }
      if exists j :: 0 <= j < |ts| && IsWildcard(ts[j].topic) {
        var j :| 0 <= j < |ts| && IsWildcard(ts[j].topic);
        if j < |init| {
          assert init[j] == ts[j];
        }
      }
    }
  }

  /** One turn of the subscribe loop. */
  function SubscribeOne<C(==)>(st: SubState<C>, c: C, t: Tuple, wildcard: bool): (r: SubState<C>)
    requires |t.topic| > 0
    ensures r.rcs == st.rcs + [t.qos]
    ensures r.session.subscriptions == st.session.subscriptions + [SubscribeName(t.topic)]
  {
    var name := SubscribeName(t.topic);
    var t1 := GetOrCreate(st.topics, name);
    var t2 := if wildcard then FanOut(t1, name, c, t.qos) else t1;
    var t3 := t2[name := t2[name].(subscribers := AddSubscriber(t2[name].subscribers, c, t.qos))];
    var s1 := st.session.(subscriptions := st.session.subscriptions + [name]);
    var s2 := if t3[name].retained.Some? then s1.(out := s1.out + t3[name].retained.value) else s1;
    SubState(s2, t3, st.rcs + [t.qos])
  }

  /** The loop over the tuples of a SUBSCRIBE. */
  function SubscribeTuples<C(==)>(s: Session, topics: map<TopicName, Topic<C>>, c: C, ts: seq<Tuple>): SubState<C>
    requires NonEmptyFilters(ts)
    decreases |ts|
  {
    if ts == [] then SubState(s, topics, [])
    else
      var init := ts[..|ts| - 1];
      assert NonEmptyFilters(init) by {
        forall i | 0 <= i < |init| ensures |init[i].topic| > 0 { assert init[i] == ts[i]; }
      }
      SubscribeOne(SubscribeTuples(s, topics, c, init), c, ts[|ts| - 1], Sticky(ts))
  }

  /** The return codes: one per tuple, each the QoS requested, in the
      order of the request. */
  lemma {:induction false} SubackCodes<C>(s: Session, topics: map<TopicName, Topic<C>>, c: C, ts: seq<Tuple>)
    requires NonEmptyFilters(ts)
    ensures var r := SubscribeTuples(s, topics, c, ts);
      |r.rcs| == |ts| && forall i :: 0 <= i < |ts| ==> r.rcs[i] == ts[i].qos
    decreases |ts|
  {
    if ts != [] {
      var init := ts[..|ts| - 1];
      assert NonEmptyFilters(init) by {
        forall i | 0 <= i < |init| ensures |init[i].topic| > 0 { assert init[i] == ts[i]; }
      }
      SubackCodes(s, topics, c, init);
      assert forall i :: 0 <= i < |init| ==> init[i] == ts[i];
    }
  }

  /** The names a SUBSCRIBE records, one per tuple, in order. */
  function FilterNames(ts: seq<Tuple>): (r: seq<TopicName>)
    requires NonEmptyFilters(ts)
    ensures |r| == |ts| && forall i :: 0 <= i < |ts| ==> r[i] == SubscribeName(ts[i].topic)
  {
    if ts == [] then []
    else
      var init := ts[..|ts| - 1];
      assert NonEmptyFilters(init) by {
        forall i | 0 <= i < |init| ensures |init[i].topic| > 0 { assert init[i] == ts[i]; }
      }
      var r := FilterNames(init) + [SubscribeName(ts[|ts| - 1].topic)];
      assert forall i :: 0 <= i < |init| ==> r[i] == SubscribeName(init[i].topic) && init[i] == ts[i];
      r
  }

  /** The client's subscription list gains the stored name of every
      tuple, in request order, after what it held. */
  lemma {:induction false} SubscribeRecordsNames<C>(s: Session, topics: map<TopicName, Topic<C>>, c: C, ts: seq<Tuple>)
    requires NonEmptyFilters(ts)
    ensures SubscribeTuples(s, topics, c, ts).session.subscriptions == s.subscriptions + FilterNames(ts)
    decreases |ts|
  {
    if ts != [] {
      var init := ts[..|ts| - 1];
      assert NonEmptyFilters(init) by {
        forall i | 0 <= i < |init| ensures |init[i].topic| > 0 { assert init[i] == ts[i]; }
      }
      SubscribeRecordsNames(s, topics, c, init);
    }
  }

  /** `c` is a subscriber of every topic in `names`. */
  predicate Joined<C(==)>(topics: map<TopicName, Topic<C>>, c: C, names: seq<TopicName>)
  {
    forall i :: 0 <= i < |names| ==> names[i] in topics && Subscribes(topics[names[i]].subscribers, c)
  }

  /** Every topic of `a` that `c` subscribes to is still in `b` with `c`
      among its subscribers. */
  predicate KeepsSubscriptions<C(==)>(a: map<TopicName, Topic<C>>, b: map<TopicName, Topic<C>>, c: C)
  {
    forall k :: k in a && Subscribes(a[k].subscribers, c) ==> k in b && Subscribes(b[k].subscribers, c)
  }

  lemma JoinedKept<C>(a: map<TopicName, Topic<C>>, b: map<TopicName, Topic<C>>, c: C, names: seq<TopicName>, name: TopicName)
    requires Joined(a, c, names) && KeepsSubscriptions(a, b, c)
    requires name in b && Subscribes(b[name].subscribers, c)
    ensures Joined(b, c, names + [name])
  {
    var all := names + [name];
    forall i | 0 <= i < |all| ensures all[i] in b && Subscribes(b[all[i]].subscribers, c) {
      if i < |names| {
        assert all[i] == names[i];
      }
    }
  }

  /** The wildcard walk, when it runs, keeps every subscription of `c`
      and every topic. */
  lemma FanOutKeeps<C>(t1: map<TopicName, Topic<C>>, name: TopicName, c: C, qos: byte, wildcard: bool)
    ensures var t2 := if wildcard then FanOut(t1, name, c, qos) else t1;
      t1.Keys == t2.Keys && KeepsSubscriptions(t1, t2, c)
  {
    if wildcard {
      FanOutSpec(t1, name, c, qos);
    }
  }

  /** Adding `c` to topic `name` keeps every other subscription of `c`. */
  lemma AddKeeps<C>(t2: map<TopicName, Topic<C>>, name: TopicName, c: C, qos: byte)
    requires name in t2
    ensures var t3 := t2[name := t2[name].(subscribers := AddSubscriber(t2[name].subscribers, c, qos))];
      && KeepsSubscriptions(t2, t3, c)
      && Subscribes(t3[name].subscribers, c)
  {
    AddSubscriberSpec(t2[name].subscribers, c, qos);
  }

  /** One turn keeps every subscription of `c`, adds the requested one,
      and only appends to the output. */
  lemma SubscribeOneKeeps<C>(st: SubState<C>, c: C, t: Tuple, wildcard: bool)
    requires |t.topic| > 0
    ensures var r := SubscribeOne(st, c, t, wildcard);
      && st.topics.Keys <= r.topics.Keys
      && KeepsSubscriptions(st.topics, r.topics, c)
      && SubscribeName(t.topic) in r.topics && Subscribes(r.topics[SubscribeName(t.topic)].subscribers, c)
      && st.session.out <= r.session.out
  {
    var name := SubscribeName(t.topic);
    var t1 := GetOrCreate(st.topics, name);
    var t2 := if wildcard then FanOut(t1, name, c, t.qos) else t1;
    var t3 := t2[name := t2[name].(subscribers := AddSubscriber(t2[name].subscribers, c, t.qos))];
    var r := SubscribeOne(st, c, t, wildcard);
    SubscribeOneEffect(st, c, t, wildcard);
    assert r.topics == t3;
    assert KeepsSubscriptions(st.topics, t1, c);
    FanOutKeeps(t1, name, c, t.qos, wildcard);
    AddKeeps(t2, name, c, t.qos);
    KeepsTrans(st.topics, t1, t2, c);
    KeepsTrans(st.topics, t2, t3, c);
  }

  /** One turn stores the client under the tuple's name at the requested
      QoS, keeps that topic's retained message, and writes that retained
      message, when there is one, after what was already written. */
  lemma SubscribeOneEffect<C>(st: SubState<C>, c: C, t: Tuple, wildcard: bool)
    requires |t.topic| > 0
    ensures var r := SubscribeOne(st, c, t, wildcard);
      var name := SubscribeName(t.topic);
      && name in r.topics
      && SubscribedWith(r.topics[name].subscribers, c, t.qos)
      && r.topics[name].retained == (if name in st.topics then st.topics[name].retained else None)
      && r.session.out == st.session.out + (if r.topics[name].retained.Some? then r.topics[name].retained.value else [])
  {
    var name := SubscribeName(t.topic);
    var t1 := GetOrCreate(st.topics, name);
    var t2 := if wildcard then FanOut(t1, name, c, t.qos) else t1;
    if wildcard {
      FanOutSpec(t1, name, c, t.qos);
    }
    assert t2[name].retained == t1[name].retained;
    AddSubscriberSpec(t2[name].subscribers, c, t.qos);
  }

  lemma KeepsTrans<C>(a: map<TopicName, Topic<C>>, b: map<TopicName, Topic<C>>, d: map<TopicName, Topic<C>>, c: C)
    requires KeepsSubscriptions(a, b, c) && KeepsSubscriptions(b, d, c)
    ensures KeepsSubscriptions(a, d, c)
  {
  }

  /** After a SUBSCRIBE the client is a subscriber of the topic stored for
      each tuple, the topics that existed still exist, and the output has
      only grown. */
  lemma {:induction false} SubscribeJoins<C>(s: Session, topics: map<TopicName, Topic<C>>, c: C, ts: seq<Tuple>)
    requires NonEmptyFilters(ts)
    ensures var r := SubscribeTuples(s, topics, c, ts);
      && topics.Keys <= r.topics.Keys
      && s.out <= r.session.out
      && Joined(r.topics, c, FilterNames(ts))
    decreases |ts|
  {
    if ts != [] {
      var init := ts[..|ts| - 1];
      assert NonEmptyFilters(init) by {
        forall i | 0 <= i < |init| ensures |init[i].topic| > 0 { assert init[i] == ts[i]; }
      }
      SubscribeJoins(s, topics, c, init);
      var prev := SubscribeTuples(s, topics, c, init);
      var r := SubscribeTuples(s, topics, c, ts);
      SubscribeOneKeeps(prev, c, ts[|ts| - 1], Sticky(ts));
      JoinedKept(prev.topics, r.topics, c, FilterNames(init), SubscribeName(ts[|ts| - 1].topic));
    }
  }

  /** Some tuple up to `j` is a "/#" filter, so the wildcard flag is set
      when tuple `j` is handled. */
  predicate WildcardBy(ts: seq<Tuple>, j: nat)
  {
    exists k :: 0 <= k <= j && k < |ts| && IsWildcard(ts[k].topic)
  }

  /** Tuple `j`, later than `i`, takes over the entry that tuple `i` made:
      it stores the same name, or it walks a prefix of that name while the
      wildcard flag is set. */
  predicate TakesOver(ts: seq<Tuple>, i: nat, j: nat)
    requires NonEmptyFilters(ts) && i < j < |ts|
  {
    || SubscribeName(ts[j].topic) == SubscribeName(ts[i].topic)
    || (WildcardBy(ts, j) && SubscribeName(ts[j].topic) <= SubscribeName(ts[i].topic))
  }

  predicate LaterOverrides(ts: seq<Tuple>, i: nat)
    requires NonEmptyFilters(ts) && i < |ts|
  {
    exists j :: i < j < |ts| && TakesOver(ts, i, j)
  }

  /** A turn for another name, whose walk (if any) does not reach `k`,
      leaves topic `k` as it was. */
  lemma SubscribeOneOther<C>(st: SubState<C>, c: C, t: Tuple, wildcard: bool, k: TopicName)
    requires |t.topic| > 0 && k in st.topics && k != SubscribeName(t.topic)
    requires !(wildcard && SubscribeName(t.topic) <= k)
    ensures var r := SubscribeOne(st, c, t, wildcard);
      k in r.topics && r.topics[k] == st.topics[k]
  {
    var name := SubscribeName(t.topic);
    var t1 := GetOrCreate(st.topics, name);
    if wildcard {
      FanOutSpec(t1, name, c, t.qos);
    }
  }

  /** A tuple that no later tuple takes over is not taken over within the
      tuples before the last one either, and the last one neither stores
      its name nor walks a prefix of it. */
  lemma NotOverriddenInit(ts: seq<Tuple>, i: nat)
    requires NonEmptyFilters(ts) && i < |ts| - 1 && !LaterOverrides(ts, i)
    ensures NonEmptyFilters(ts[..|ts| - 1]) && !LaterOverrides(ts[..|ts| - 1], i)
    ensures var last := SubscribeName(ts[|ts| - 1].topic);
      last != SubscribeName(ts[i].topic) && !(Sticky(ts) && last <= SubscribeName(ts[i].topic))
  {
    var n := |ts| - 1;
    var init := ts[..n];
    assert NonEmptyFilters(init) by {
      forall k | 0 <= k < |init| ensures |init[k].topic| > 0 { assert init[k] == ts[k]; }
    }
    forall j | i < j < |init| ensures !TakesOver(init, i, j) {
      TakesOverPrefix(ts, n, i, j);
    }
    NotOverriddenByLast(ts, i);
  }

  /** Whether `j` takes over `i` depends only on the tuples up to `j`. */
  lemma TakesOverPrefix(ts: seq<Tuple>, n: nat, i: nat, j: nat)
    requires NonEmptyFilters(ts) && i < j < n <= |ts|
    ensures NonEmptyFilters(ts[..n]) && TakesOver(ts[..n], i, j) == TakesOver(ts, i, j)
  {
    assert forall k :: 0 <= k < n ==> ts[..n][k] == ts[k];
    assert WildcardBy(ts[..n], j) == WildcardBy(ts, j);
  }

  lemma NotOverriddenByLast(ts: seq<Tuple>, i: nat)
    requires NonEmptyFilters(ts) && i < |ts| - 1 && !LaterOverrides(ts, i)
    ensures var last := SubscribeName(ts[|ts| - 1].topic);
      last != SubscribeName(ts[i].topic) && !(Sticky(ts) && last <= SubscribeName(ts[i].topic))
  {
    StickyIsAny(ts);
    assert Sticky(ts) == WildcardBy(ts, |ts| - 1);
    assert !TakesOver(ts, i, |ts| - 1);
  }

  /** After a SUBSCRIBE, the client holds the QoS it asked for on the name
      of every tuple that no later tuple takes over. */
  lemma {:induction false} SubscribeQos<C>(s: Session, topics: map<TopicName, Topic<C>>, c: C, ts: seq<Tuple>)
    requires NonEmptyFilters(ts)
    ensures var r := SubscribeTuples(s, topics, c, ts);
      forall i :: 0 <= i < |ts| && !LaterOverrides(ts, i) ==>
        SubscribeName(ts[i].topic) in r.topics
        && SubscribedWith(r.topics[SubscribeName(ts[i].topic)].subscribers, c, ts[i].qos)
    decreases |ts|
  {
    if ts != [] {
      var n := |ts| - 1;
      var init := ts[..n];
      assert NonEmptyFilters(init) by {
        forall i | 0 <= i < |init| ensures |init[i].topic| > 0 { assert init[i] == ts[i]; }
      }
      SubscribeQos(s, topics, c, init);
      var prev := SubscribeTuples(s, topics, c, init);
      var r := SubscribeTuples(s, topics, c, ts);
      assert r == SubscribeOne(prev, c, ts[n], Sticky(ts));
      forall i | 0 <= i < |ts| && !LaterOverrides(ts, i)
        ensures SubscribeName(ts[i].topic) in r.topics
             && SubscribedWith(r.topics[SubscribeName(ts[i].topic)].subscribers, c, ts[i].qos)
      {
        if i == n {
          SubscribeOneEffect(prev, c, ts[n], Sticky(ts));
        } else {
          NotOverriddenInit(ts, i);
          assert init[i] == ts[i];
          SubscribeOneOther(prev, c, ts[n], Sticky(ts), SubscribeName(ts[i].topic));
        }
      }
    }
  }

  /** The output of a prefix of the tuples is a prefix of the output of
      all of them. */
  lemma {:induction false} SubscribeOutGrows<C>(s: Session, topics: map<TopicName, Topic<C>>, c: C, ts: seq<Tuple>, i: nat)
    requires NonEmptyFilters(ts) && i <= |ts|
    ensures NonEmptyFilters(ts[..i])
    ensures SubscribeTuples(s, topics, c, ts[..i]).session.out <= SubscribeTuples(s, topics, c, ts).session.out
    decreases |ts|
  {
    assert NonEmptyFilters(ts[..i]) by {
      forall j | 0 <= j < i ensures |ts[..i][j].topic| > 0 { assert ts[..i][j] == ts[j]; }
    }
    if i < |ts| {
      var init := ts[..|ts| - 1];
      assert NonEmptyFilters(init) by {
        forall j | 0 <= j < |init| ensures |init[j].topic| > 0 { assert init[j] == ts[j]; }
      }
      assert init[..i] == ts[..i];
      SubscribeOutGrows(s, topics, c, init, i);
      SubscribeOneKeeps(SubscribeTuples(s, topics, c, init), c, ts[|ts| - 1], Sticky(ts));
    } else {
      assert ts[..i] == ts;
    }
  }

  /** One more turn of the loop over the tuples: the wildcard flag
      becomes set at the first "/#" filter, the tuple is subscribed, and
      what it writes extends what the whole loop writes. */
  lemma SubscribeTuplesNext<C>(s: Session, topics: map<TopicName, Topic<C>>, c: C, ts: seq<Tuple>, i: nat)
    requires NonEmptyFilters(ts) && i < |ts|
    ensures NonEmptyFilters(ts[..i]) && NonEmptyFilters(ts[..i + 1]) && |ts[i].topic| > 0
    ensures Sticky(ts[..i + 1]) == (Sticky(ts[..i]) || IsWildcard(ts[i].topic))
    ensures SubscribeTuples(s, topics, c, ts[..i + 1])
         == SubscribeOne(SubscribeTuples(s, topics, c, ts[..i]), c, ts[i], Sticky(ts[..i + 1]))
    ensures SubscribeTuples(s, topics, c, ts[..i + 1]).session.out <= SubscribeTuples(s, topics, c, ts).session.out
  {
    assert ts[..i + 1][..i] == ts[..i] && ts[..i + 1][i] == ts[i];
    SubscribeOutGrows(s, topics, c, ts, i + 1);
    SubscribeOutGrows(s, topics, c, ts, i);
  }

  /** subscribe_handler: the loop, then one SUBACK carrying one return
      code per tuple, each the requested QoS, in request order. */
  function SubscribeStep<C(==)>(s: Session, topics: map<TopicName, Topic<C>>, c: C,
                                id: PktId, ts: seq<Tuple>, pack: Packer): Step<C>
    requires NonEmptyFilters(ts)
  {
    var st := SubscribeTuples(s, topics, c, ts);
    Step(st.session.(out := st.session.out + pack(SubackPacket(id, st.rcs))), st.topics, Reply)
  }

  /** unsubscribe_handler: the client leaves each listed topic (looked up
      by the filter exactly as sent); UNSUBACK follows. */
  function UnsubscribeStep<C(==)>(s: Session, topics: map<TopicName, Topic<C>>, c: C,
                                  id: PktId, filters: seq<seq<char>>): Step<C>
  {
    Step(s.(out := s.out + AckBytes(Unsuback, id)), Unsubscribe(topics, c, filters), Reply)
  }

  /** UNSUBSCRIBE: the client has left every listed topic that exists,
      no topic appears or disappears, the others are untouched, and the
      one thing written is an UNSUBACK carrying the request's identifier. */
  lemma UnsubscribeLeaves<C>(s: Session, topics: map<TopicName, Topic<C>>, c: C,
                             id: PktId, filters: seq<seq<char>>)
    ensures var r := UnsubscribeStep(s, topics, c, id, filters);
      && r.outcome == Reply
      && |r.session.out| == |s.out| + MQTT_ACK_LEN && r.session.out[..|s.out|] == s.out
      && DecodeAck(r.session.out[|s.out|..]) == Some((Unsuback, id))
      && r.session.(out := s.out) == s
      && r.topics.Keys == topics.Keys
      && (forall k :: k in r.topics && k in filters ==> !Subscribes(r.topics[k].subscribers, c))
      && (forall k :: k in r.topics && k !in filters ==> r.topics[k] == topics[k])
  {
    var r := UnsubscribeStep(s, topics, c, id, filters);
    assert r.session.out[|s.out|..] == AckBytes(Unsuback, id);
    AckRoundTrip(Unsuback, id);
    UnsubscribeSpec(topics, c, filters);
  }

  /** The QoS levels requested, in request order. */
  function RequestedQos(ts: seq<Tuple>): (r: seq<byte>)
    ensures |r| == |ts| && forall i :: 0 <= i < |ts| ==> r[i] == ts[i].qos
  {
    seq(|ts|, i requires 0 <= i < |ts| => ts[i].qos)
  }

  /** SUBSCRIBE answers REPLY, and the last thing written is the SUBACK for
      the request's identifier with the requested QoS of every tuple, in
      order, after whatever the loop wrote. */
  lemma SubscribeReplies<C>(s: Session, topics: map<TopicName, Topic<C>>, c: C,
                            id: PktId, ts: seq<Tuple>, pack: Packer)
    requires NonEmptyFilters(ts)
    ensures var r := SubscribeStep(s, topics, c, id, ts, pack);
      var st := SubscribeTuples(s, topics, c, ts);
      && r.outcome == Reply
      && r.session.out == st.session.out + pack(SubackPacket(id, RequestedQos(ts)))
      && s.out <= st.session.out
  {
    SubackCodes(s, topics, c, ts);
    SubscribeJoins(s, topics, c, ts);
    assert SubscribeTuples(s, topics, c, ts).rcs == RequestedQos(ts);
  }

  /** PINGREQ: a PINGRESP is appended and nothing else changes. */
  lemma PingreqReplies(s: Session)
    ensures var r := PingreqStep(s);
      && |r.out| == |s.out| + MQTT_HEADER_LEN && r.out[..|s.out|] == s.out
      && r.out[|s.out|..] == [PINGRESP_B, 0]
      && r.(out := s.out) == s
  {
  }

  /** disconnect_handler: a clean session leaves every topic it recorded;
      nothing is written and the client is to be dropped. */
  function DisconnectStep<C(==)>(s: Session, topics: map<TopicName, Topic<C>>, c: C): Step<C>
  {
    Step(s, if s.cleanSession then Unsubscribe(topics, c, s.subscriptions) else topics, ClientDisconnect)
  }

  /** DISCONNECT writes nothing and drops the client; a clean session has
      then left every topic it recorded, a persistent one stays subscribed
      everywhere. */
  lemma DisconnectLeaves<C>(s: Session, topics: map<TopicName, Topic<C>>, c: C)
    ensures var r := DisconnectStep(s, topics, c);
      && r.session == s && r.outcome == ClientDisconnect
      && r.topics.Keys == topics.Keys
      && (!s.cleanSession ==> r.topics == topics)
      && (s.cleanSession ==> forall k :: k in r.topics && k in s.subscriptions ==> !Subscribes(r.topics[k].subscribers, c))
  {
    UnsubscribeSpec(topics, c, s.subscriptions);
  }
}
