/** The command handlers of the broker, written as they work: on a client
    object whose write buffer and inflight tables are arrays, and on a
    broker object holding the configuration and the topic table. Each
    handler is proved to move the client (and the topic table) exactly as
    the matching function of module Sessions says. */
module Handlers {
  import opened Mqtt
  import opened Topics
  import opened Sessions

  /** A connected client: `wbuf[..towrite]` is what waits to be written to
      the socket; `iMsgs`, `iAcks` and `inIAcks` hold the in-use flag of
      each inflight slot, indexed by packet identifier. */
  class Client {
    const wbuf: array<byte>
    var towrite: nat
    const iMsgs: array<bool>
    const iAcks: array<bool>
    const inIAcks: array<bool>
    var hasInflight: bool
    var subscriptions: seq<TopicName>
    var outgoingMsgs: seq<Publish>
    var cleanSession: bool
    var online: bool
    var hasLwt: bool
    var lwtMsg: Publish
    var clientId: seq<char>

    ghost function Repr(): set<object>
    {
      {this, wbuf, iMsgs, iAcks, inIAcks}
    }

    ghost predicate Valid()
      reads this
    {
      && towrite <= wbuf.Length
      && iMsgs != iAcks && iAcks != inIAcks && iMsgs != inIAcks
    }

    /** The client as a value. */
    ghost function State(): (s: Session)
      reads this, Repr()
      requires Valid()
      ensures |s.out| == towrite
    {
      Session(wbuf[..towrite], iMsgs[..], iAcks[..], inIAcks[..], hasInflight,
              subscriptions, outgoingMsgs, cleanSession, online, hasLwt, lwtMsg, clientId)
    }

    /** A fresh, offline client with an empty write buffer of `bufSize`
        bytes and `slots` free inflight slots in each table. */
    constructor (bufSize: nat, slots: nat, lwt: Publish)
      ensures Valid() && fresh(Repr())
      ensures State() == Session([], seq(slots, _ => false), seq(slots, _ => false), seq(slots, _ => false),
                                 false, [], [], true, false, false, lwt, [])
      ensures wbuf.Length == bufSize
    {
      wbuf := new byte[bufSize];
      towrite := 0;
      iMsgs := new bool[slots](_ => false);
      iAcks := new bool[slots](_ => false);
      inIAcks := new bool[slots](_ => false);
      hasInflight := false;
      subscriptions := [];
      outgoingMsgs := [];
      cleanSession := true;
      online := false;
      hasLwt := false;
      lwtMsg := lwt;
      clientId := [];
    }

    /** Copy `bytes` to the end of the pending output (a memcpy or an
        mqtt_pack at wbuf + towrite, then towrite += length). */
    method Write(bytes: seq<byte>)
      requires Valid() && towrite + |bytes| <= wbuf.Length
      modifies this`towrite, wbuf
      ensures Valid()
      ensures wbuf[..towrite] == old(wbuf[..towrite]) + bytes
      ensures State() == old(State()).(out := old(State()).out + bytes)
    {
      var i := 0;
      while i < |bytes|
        invariant 0 <= i <= |bytes|
        invariant towrite == old(towrite) + i
        invariant wbuf[..towrite] == old(wbuf[..towrite]) + bytes[..i]
        invariant Valid()
      {
        wbuf[towrite] := bytes[i];
        towrite := towrite + 1;
        i := i + 1;
      }
    }

    /** The flush of connect_handler: every queued message is packed into
        the write buffer in queue order; the queue itself stays. */
    method SendOutgoing(pack: Packer)
      requires Valid() && towrite + |PackAll(outgoingMsgs, pack)| <= wbuf.Length
      modifies this`towrite, wbuf
      ensures Valid()
      ensures State() == old(State()).(out := old(State()).out + PackAll(outgoingMsgs, pack))
    {
      var i := 0;
      while i < |outgoingMsgs|
        invariant 0 <= i <= |outgoingMsgs|
        invariant Valid()
        invariant wbuf[..towrite] == old(wbuf[..towrite]) + PackAll(outgoingMsgs[..i], pack)
      {
        PackAllNext(outgoingMsgs, i, pack);
        ghost var sent := wbuf[..towrite];
        Write(pack(PublishPacket(outgoingMsgs[i])));
        assert wbuf[..towrite] == sent + pack(PublishPacket(outgoingMsgs[i]));
        i := i + 1;
      }
      assert outgoingMsgs[..i] == outgoingMsgs;
    }

    /** The publisher's answer in publish_handler. */
    method AnswerPublish(qos: QosBits, id: PktId) returns (r: Outcome)
      requires Valid()
      requires qos == EXACTLY_ONCE ==> id < inIAcks.Length
      requires qos != AT_MOST_ONCE ==> towrite + MQTT_ACK_LEN <= wbuf.Length
      modifies this`towrite, this`hasInflight, wbuf, inIAcks
      ensures Valid() && State() == PublishReply(old(State()), qos, id) && r == PublishOutcome(qos)
    {
      if qos == AT_MOST_ONCE {
        return NoReply;
      }
      if qos == EXACTLY_ONCE {
        inIAcks[id] := true;
        hasInflight := true;
      }
      Write(AckBytes(if qos == EXACTLY_ONCE then Pubrec else Puback, id));
      r := Reply;
    }

    /** The client side of connect_handler's accept path: the identifier
        (the generated one when the CONNECT has none), the last will, the
        session kind, a clean start when asked, then CONNACK 0. */
    method AcceptSession(conn: Connect, o: ConnectOracle)
      requires Valid() && towrite + MQTT_ACK_LEN <= wbuf.Length
      modifies this`clientId, this`hasLwt, this`lwtMsg, this`cleanSession,
               this`subscriptions, this`outgoingMsgs, this`towrite, wbuf
      ensures Valid()
      ensures State() == WithConnack(Accept(old(State()), conn, o), MQTT_CONNECTION_ACCEPTED)
    {
      clientId := AssignedId(conn, o);
      if conn.flags.will {
        hasLwt := true;
        lwtMsg := WillMessage(conn);
      }
      cleanSession := conn.flags.cleanSession;
      if conn.flags.cleanSession {
        subscriptions := [];
        outgoingMsgs := [];
      }
      SetPayloadConnack(MQTT_CONNECTION_ACCEPTED);
    }

    /** The start of connect_handler's accept path: a returning client
        (non-empty identifier, persistent session) is sent its queue. */
    method FlushQueued(conn: Connect, pack: Packer)
      requires Valid() && |Flushed(State(), conn, pack).out| <= wbuf.Length
      modifies this`towrite, wbuf
      ensures Valid() && State() == Flushed(old(State()), conn, pack)
    {
      if conn.clientId != [] && !conn.flags.cleanSession && |outgoingMsgs| > 0 {
        SendOutgoing(pack);
      }
    }

    /** set_payload_connack. */
    method SetPayloadConnack(rc: byte)
      requires Valid() && towrite + MQTT_ACK_LEN <= wbuf.Length
      modifies this`towrite, wbuf
      ensures Valid() && State() == WithConnack(old(State()), rc)
    {
      Write(ConnackBytes(false, rc));
    }

    /** puback_handler. */
    method PubackHandler(id: PktId) returns (r: Outcome)
      requires Valid() && HasSlot(State(), id)
      modifies this`hasInflight, iMsgs, iAcks
      ensures Valid() && State() == AckCompleted(old(State()), id) && r == NoReply
    {
      iMsgs[id] := false;
      iAcks[id] := false;
      hasInflight := false;
      r := NoReply;
    }

    /** pubcomp_handler: the same completion as PUBACK, the two flags
        cleared in the other order. */
    method PubcompHandler(id: PktId) returns (r: Outcome)
      requires Valid() && HasSlot(State(), id)
      modifies this`hasInflight, iMsgs, iAcks
      ensures Valid() && State() == AckCompleted(old(State()), id) && r == NoReply
    {
      iAcks[id] := false;
      iMsgs[id] := false;
      hasInflight := false;
      r := NoReply;
    }

    /** pubrec_handler. */
    method PubrecHandler(id: PktId) returns (r: Outcome)
      requires Valid() && towrite + MQTT_ACK_LEN <= wbuf.Length
      modifies this`towrite, wbuf
      ensures Valid() && State() == PubrecStep(old(State()), id) && r == Reply
    {
      Write(AckBytes(Pubrel, id));
      r := Reply;
    }

    /** pubrel_handler. */
    method PubrelHandler(id: PktId) returns (r: Outcome)
      requires Valid() && id < inIAcks.Length && towrite + MQTT_ACK_LEN <= wbuf.Length
      modifies this`towrite, this`hasInflight, wbuf, inIAcks
      ensures Valid() && State() == PubrelStep(old(State()), id) && r == Reply
    {
      Write(AckBytes(Pubcomp, id));
      inIAcks[id] := false;
      hasInflight := false;
      r := Reply;
    }

    /** pingreq_handler. */
    method PingreqHandler() returns (r: Outcome)
      requires Valid() && towrite + MQTT_HEADER_LEN <= wbuf.Length
      modifies this`towrite, wbuf
      ensures Valid() && State() == PingreqStep(old(State())) && r == Reply
    {
      Write(PingrespBytes());
      r := Reply;
    }
  }

  /** Clients of a subscriber list are valid and own disjoint memory. */
  ghost predicate ClientsOk(subs: seq<Subscriber<Client>>)
    reads set i | 0 <= i < |subs| :: subs[i].client
  {
    && (forall i :: 0 <= i < |subs| ==> subs[i].client.Valid())
    && (forall i, j :: 0 <= i < |subs| && 0 <= j < |subs| && i != j ==> subs[i].client.Repr() !! subs[j].client.Repr())
  }

  /** Everything a delivery to `subs` may change. */
  ghost function SubsRepr(subs: seq<Subscriber<Client>>): set<object>
  {
    set i, o | 0 <= i < |subs| && o in subs[i].client.Repr() :: o
  }

  lemma SubsReprDisjoint(subs: seq<Subscriber<Client>>, x: set<object>)
    requires forall k :: 0 <= k < |subs| ==> subs[k].client.Repr() !! x
    ensures SubsRepr(subs) !! x
  {
  }

  /** Each subscriber can take the message: a free slot when one is
      needed, room in its write buffer for the packet. */
  ghost predicate Deliverable(subs: seq<Subscriber<Client>>, p: Publish, mids: seq<PktId>, pack: Packer)
    reads set i | 0 <= i < |subs| :: subs[i].client
    reads set i, o | 0 <= i < |subs| && o in subs[i].client.Repr() :: o
    requires ClientsOk(subs)
  {
    && |mids| == |subs|
    && forall i :: 0 <= i < |subs| ==>
         && CanDeliver(subs[i].client.State(), p, subs[i].qos, mids[i])
         && |Deliver(subs[i].client.State(), p, subs[i].qos, mids[i], pack).out| <= subs[i].client.wbuf.Length
  }

  /** One turn of the loop of publish_message, for subscriber `sc` with
      QoS `subQos`; `mid` is what next_free_mid returns for it. */
  method DeliverTo(sc: Client, p: Publish, subQos: byte, mid: PktId, pack: Packer)
    requires sc.Valid() && CanDeliver(sc.State(), p, subQos, mid)
    requires |Deliver(sc.State(), p, subQos, mid, pack).out| <= sc.wbuf.Length
    modifies sc.Repr()
    ensures sc.Valid() && sc.State() == Deliver(old(sc.State()), p, subQos, mid, pack)
  {
    var q := Forwarded(p.qos, subQos);
    if !sc.online {
      if !sc.cleanSession {
        sc.outgoingMsgs := sc.outgoingMsgs + [Queued(p, subQos)];
      }
      return;
    }
    if q > AT_MOST_ONCE {
      sc.iMsgs[mid] := true;
      sc.iAcks[mid] := true;
      sc.hasInflight := true;
    }
    sc.Write(pack(PublishPacket(Outbound(p, subQos, mid))));
  }

  /** publish_message: every subscriber of the topic gets its copy of
      `p`; nothing else changes. */
  method PublishMessage(p: Publish, subs: seq<Subscriber<Client>>, mids: seq<PktId>, pack: Packer)
    requires ClientsOk(subs) && Deliverable(subs, p, mids, pack)
    modifies SubsRepr(subs)
    ensures ClientsOk(subs)
    ensures forall i :: 0 <= i < |subs| ==>
      subs[i].client.State() == Deliver(old(subs[i].client.State()), p, subs[i].qos, mids[i], pack)
  {
    var i := 0;
    while i < |subs|
      invariant 0 <= i <= |subs|
      invariant ClientsOk(subs)
      invariant forall j :: 0 <= j < i ==>
        subs[j].client.State() == Deliver(old(subs[j].client.State()), p, subs[j].qos, mids[j], pack)
      invariant forall j :: i <= j < |subs| ==> subs[j].client.State() == old(subs[j].client.State())
    {
      assert subs[i].client.Repr() <= SubsRepr(subs);
      DeliverAt(subs, i, p, mids[i], pack);
      i := i + 1;
    }
  }

  /** One turn of the loop of publish_message: subscriber `i` gets its
      copy, every other subscriber is left as it was. */
  method DeliverAt(subs: seq<Subscriber<Client>>, i: nat, p: Publish, mid: PktId, pack: Packer)
    requires ClientsOk(subs) && i < |subs|
    requires CanDeliver(subs[i].client.State(), p, subs[i].qos, mid)
    requires |Deliver(subs[i].client.State(), p, subs[i].qos, mid, pack).out| <= subs[i].client.wbuf.Length
    modifies subs[i].client.Repr()
    ensures ClientsOk(subs)
    ensures subs[i].client.State() == Deliver(old(subs[i].client.State()), p, subs[i].qos, mid, pack)
    ensures forall j :: 0 <= j < |subs| && j != i ==> subs[j].client.State() == old(subs[j].client.State())
  {
    var sc := subs[i].client;
    DeliverTo(sc, p, subs[i].qos, mid, pack);
    forall j | 0 <= j < |subs| && j != i
      ensures subs[j].client.Valid() && subs[j].client.State() == old(subs[j].client.State())
    {
      assert sc.Repr() !! subs[j].client.Repr();
      StateKept(subs[j].client);
    }
  }

  /** The part of publish_handler after the topic lookup: the delivery
      loop, then the answer to the publisher `c`. */
  method DeliverAndAnswer(c: Client, subs: seq<Subscriber<Client>>, p: Publish, mids: seq<PktId>, pack: Packer)
    returns (r: Outcome)
    requires c.Valid() && ClientsOk(subs) && Deliverable(subs, p, mids, pack)
    requires forall k :: 0 <= k < |subs| ==> subs[k].client == c || subs[k].client.Repr() !! c.Repr()
    requires var before := SelfAfter(c.State(), c, subs, p, mids, pack);
      && (p.qos == EXACTLY_ONCE ==> p.pktId < |before.inIAcks|)
      && (p.qos != AT_MOST_ONCE ==> |before.out| + MQTT_ACK_LEN <= c.wbuf.Length)
    modifies c.Repr(), SubsRepr(subs)
    ensures ClientsOk(subs) && c.Valid()
    ensures forall k :: 0 <= k < |subs| && subs[k].client != c ==>
      subs[k].client.State() == Deliver(old(subs[k].client.State()), p, subs[k].qos, mids[k], pack)
    ensures c.State() == PublishReply(SelfAfter(old(c.State()), c, subs, p, mids, pack), p.qos, p.pktId)
    ensures r == PublishOutcome(p.qos)
  {
    PublishMessage(p, subs, mids, pack);
    if Position(subs, c).None? {
      SubsReprDisjoint(subs, c.Repr());
    }
    assert c.Valid() && c.State() == SelfAfter(old(c.State()), c, subs, p, mids, pack);
    r := AnswerPublisher(c, subs, p.qos, p.pktId);
  }

  /** The publisher's answer, which leaves every other subscriber as the
      delivery loop left it. */
  method AnswerPublisher(c: Client, subs: seq<Subscriber<Client>>, qos: QosBits, id: PktId) returns (r: Outcome)
    requires c.Valid() && ClientsOk(subs)
    requires forall k :: 0 <= k < |subs| ==> subs[k].client == c || subs[k].client.Repr() !! c.Repr()
    requires qos == EXACTLY_ONCE ==> id < c.inIAcks.Length
    requires qos != AT_MOST_ONCE ==> c.towrite + MQTT_ACK_LEN <= c.wbuf.Length
    modifies c`towrite, c`hasInflight, c.wbuf, c.inIAcks
    ensures ClientsOk(subs) && c.Valid()
    ensures c.State() == PublishReply(old(c.State()), qos, id) && r == PublishOutcome(qos)
    ensures forall k :: 0 <= k < |subs| && subs[k].client != c ==>
      subs[k].client.State() == old(subs[k].client.State())
  {
    r := c.AnswerPublish(qos, id);
    forall k | 0 <= k < |subs| && subs[k].client != c
      ensures subs[k].client.Valid() && subs[k].client.State() == old(subs[k].client.State())
    {
      var x := subs[k].client;
      assert x.Repr() !! c.Repr();
      StateKept(x);
    }
  }

  /** A client none of whose memory was written keeps its state. */
  twostate lemma StateKept(x: Client)
    requires old(x.Valid()) && unchanged(x, x.wbuf, x.iMsgs, x.iAcks, x.inIAcks)
    ensures x.Valid() && x.State() == old(x.State())
  {
  }

  /** The broker object is none of the clients' memory. */
  lemma BrokerOutside(b: Broker, c: Client, subs: seq<Subscriber<Client>>)
    ensures b !in c.Repr() && b !in SubsRepr(subs)
  {
  }

  /** The broker-wide state the handlers use: the configuration, the
      username to salted-password table, and the topic table. */
  class Broker {
    const allowAnonymous: bool
    var authentications: map<seq<char>, seq<char>>
    const checkPasswd: (seq<char>, seq<char>) -> bool
    var topics: map<TopicName, Topic<Client>>

    ghost function Config(): AuthConfig
      reads this
    {
      AuthConfig(allowAnonymous, authentications, checkPasswd)
    }

    constructor (allowAnonymous: bool, authentications: map<seq<char>, seq<char>>,
                 checkPasswd: (seq<char>, seq<char>) -> bool)
      ensures Config() == AuthConfig(allowAnonymous, authentications, checkPasswd)
      ensures topics == map[]
    {
      this.allowAnonymous := allowAnonymous;
      this.authentications := authentications;
      this.checkPasswd := checkPasswd;
      topics := map[];
    }

    /** topic_del_subscriber on each named topic that exists. */
    method RemoveSubscriber(c: Client, names: seq<TopicName>)
      modifies this`topics
      ensures topics == Unsubscribe(old(topics), c, names)
    {
      var i := 0;
      while i < |names|
        invariant 0 <= i <= |names|
        invariant topics == Unsubscribe(old(topics), c, names[..i])
      {
        var n := names[i];
        if n in topics {
          topics := topics[n := topics[n].(subscribers := WithoutClient(topics[n].subscribers, c))];
        }
        assert names[..i + 1][..i] == names[..i];
        i := i + 1;
      }
      assert names[..i] == names;
    }

    /** unsubscribe_handler. */
    method UnsubscribeHandler(c: Client, id: PktId, filters: seq<seq<char>>) returns (r: Outcome)
      requires c.Valid() && c.towrite + MQTT_ACK_LEN <= c.wbuf.Length
      modifies this`topics, c`towrite, c.wbuf
      ensures c.Valid()
      ensures Step(c.State(), topics, r) == UnsubscribeStep(old(c.State()), old(topics), c, id, filters)
    {
      RemoveSubscriber(c, filters);
      c.Write(AckBytes(Unsuback, id));
      r := Reply;
    }

    /** disconnect_handler. */
    method DisconnectHandler(c: Client) returns (r: Outcome)
      requires c.Valid()
      modifies this`topics
      ensures c.Valid()
      ensures Step(c.State(), topics, r) == DisconnectStep(old(c.State()), old(topics), c)
    {
      if c.cleanSession && |c.subscriptions| > 0 {
        RemoveSubscriber(c, c.subscriptions);
      }
      r := ClientDisconnect;
    }

    /** One turn of the loop of subscribe_handler; `rcs` are the return
        codes collected before it. */
    method SubscribeTuple(c: Client, t: Tuple, wildcard: bool, ghost rcs: seq<byte>)
      requires c.Valid() && |t.topic| > 0
      requires |SubscribeOne(SubState(c.State(), topics, rcs), c, t, wildcard).session.out| <= c.wbuf.Length
      modifies this`topics, c, c.wbuf
      ensures c.Valid()
      ensures SubState(c.State(), topics, rcs + [t.qos]) == SubscribeOne(SubState(old(c.State()), old(topics), rcs), c, t, wildcard)
    {
      var name := SubscribeName(t.topic);
      topics := GetOrCreate(topics, name);
      if wildcard {
        topics := FanOut(topics, name, c, t.qos);
      }
      topics := topics[name := topics[name].(subscribers := AddSubscriber(topics[name].subscribers, c, t.qos))];
      c.subscriptions := c.subscriptions + [name];
      if topics[name].retained.Some? {
        c.Write(topics[name].retained.value);
      }
    }

    /** The loop of subscribe_handler over the tuples; `rcs` are the
        return codes for the SUBACK. */
    method SubscribeAll(c: Client, ts: seq<Tuple>) returns (rcs: seq<byte>)
      requires c.Valid() && NonEmptyFilters(ts)
      requires |SubscribeTuples(c.State(), topics, c, ts).session.out| <= c.wbuf.Length
      modifies this`topics, c, c.wbuf
      ensures c.Valid()
      ensures SubState(c.State(), topics, rcs) == SubscribeTuples(old(c.State()), old(topics), c, ts)
    {
      ghost var s0 := c.State();
      ghost var t0 := topics;
      var wildcard := false;
      rcs := [];
      var i := 0;
      while i < |ts|
        invariant 0 <= i <= |ts| && c.Valid()
        invariant wildcard == Sticky(ts[..i])
        invariant SubState(c.State(), topics, rcs) == SubscribeTuples(s0, t0, c, ts[..i])
      {
        var t := ts[i];
        SubscribeTuplesNext(s0, t0, c, ts, i);
        if IsWildcard(t.topic) {
          wildcard := true;
        }
        SubscribeTuple(c, t, wildcard, rcs);
        rcs := rcs + [t.qos];
        i := i + 1;
      }
      assert ts[..i] == ts;
    }

    /** subscribe_handler. */
    method SubscribeHandler(c: Client, id: PktId, ts: seq<Tuple>, pack: Packer) returns (r: Outcome)
      requires c.Valid() && NonEmptyFilters(ts)
      requires |SubscribeStep(c.State(), topics, c, id, ts, pack).session.out| <= c.wbuf.Length
      modifies this`topics, c, c.wbuf
      ensures c.Valid()
      ensures Step(c.State(), topics, r) == SubscribeStep(old(c.State()), old(topics), c, id, ts, pack)
    {
      var rcs := SubscribeAll(c, ts);
      c.Write(pack(SubackPacket(id, rcs)));
      r := Reply;
    }

    /** The credential check of connect_handler, without its effects. */
    method Authenticate(conn: Connect) returns (ok: bool)
      ensures ok == Authenticated(Config(), conn)
    {
      ok := true;
      if !allowAnonymous {
        if || !conn.flags.username || !conn.flags.password
           || conn.username !in authentications
           || !checkPasswd(conn.password, authentications[conn.username])
        {
          ok := false;
        }
      }
    }

    /** connect_handler after the flush: drop a second CONNECT from a
        client already online, or accept. */
    method AcceptOrDropClient(c: Client, conn: Connect, o: ConnectOracle, pack: Packer) returns (r: Outcome)
      requires c.Valid()
      requires |AcceptOrDrop(c.State(), topics, conn, o, pack).session.out| <= c.wbuf.Length
      modifies this`topics, c, c.wbuf
      ensures c.Valid()
      ensures Step(c.State(), topics, r) == AcceptOrDrop(old(c.State()), old(topics), conn, o, pack)
    {
      if c.online && o.idCompare == 1 {
        return ClientDisconnect;
      }
      if conn.flags.will {
        topics := WithWillTopic(topics, conn, pack);
      }
      c.AcceptSession(conn, o);
      r := Reply;
    }

    /** connect_handler after both checks: flush the queue of a returning
        persistent client, then drop or accept. */
    method AdmitOrDrop(c: Client, conn: Connect, o: ConnectOracle, pack: Packer) returns (r: Outcome)
      requires c.Valid()
      requires |Admitted(c.State(), topics, conn, o, pack).session.out| <= c.wbuf.Length
      modifies this`topics, c, c.wbuf
      ensures c.Valid()
      ensures Step(c.State(), topics, r) == Admitted(old(c.State()), old(topics), conn, o, pack)
    {
      c.FlushQueued(conn, pack);
      r := AcceptOrDropClient(c, conn, o, pack);
    }

    /** connect_handler. */
    method ConnectHandler(c: Client, conn: Connect, o: ConnectOracle, pack: Packer) returns (r: Outcome)
      requires c.Valid()
      requires |ConnectStep(c.State(), topics, Config(), conn, o, pack).session.out| <= c.wbuf.Length
      modifies this`topics, c, c.wbuf
      ensures c.Valid()
      ensures Step(c.State(), topics, r) == ConnectStep(old(c.State()), old(topics), old(Config()), conn, o, pack)
    {
      var ok := Authenticate(conn);
      if !ok {
        c.SetPayloadConnack(MQTT_BAD_USERNAME_OR_PASSWORD);
        return Refused(MQTT_BAD_USERNAME_OR_PASSWORD);
      }
      if conn.clientId == [] && !conn.flags.cleanSession {
        c.SetPayloadConnack(MQTT_NOT_AUTHORIZED);
        return Refused(MQTT_NOT_AUTHORIZED);
      }
      assert ConnectVerdict(Config(), conn) == Accepted;
      r := AdmitOrDrop(c, conn, o, pack);
    }

    /** publish_handler: normalise the topic name, create the topic, keep
        the retained message, deliver to every subscriber, then answer the
        publisher. `mids[k]` is the identifier next_free_mid gives the k-th
        subscriber. The publisher may itself be one of the subscribers. */
    method PublishHandler(c: Client, p: Publish, mids: seq<PktId>, pack: Packer) returns (r: Outcome)
      requires c.Valid()
      requires var subs := SubscribersOf(topics, PublishName(p.topic));
        && ClientsOk(subs) && Deliverable(subs, p, mids, pack)
        && (forall k :: 0 <= k < |subs| ==> subs[k].client == c || subs[k].client.Repr() !! c.Repr())
        && var before := SelfAfter(c.State(), c, subs, p, mids, pack);
           && (p.qos == EXACTLY_ONCE ==> p.pktId < |before.inIAcks|)
           && (p.qos != AT_MOST_ONCE ==> |before.out| + MQTT_ACK_LEN <= c.wbuf.Length)
      modifies this`topics, c.Repr(), SubsRepr(SubscribersOf(topics, PublishName(p.topic)))
      ensures topics == PublishTopics(old(topics), p, pack)
      ensures var subs := SubscribersOf(old(topics), PublishName(p.topic));
        && ClientsOk(subs) && c.Valid()
        && (forall k :: 0 <= k < |subs| && subs[k].client != c ==>
              subs[k].client.State() == Deliver(old(subs[k].client.State()), p, subs[k].qos, mids[k], pack))
        && c.State() == PublishReply(SelfAfter(old(c.State()), c, subs, p, mids, pack), p.qos, p.pktId)
      ensures r == PublishOutcome(p.qos)
    {
      var subs := SubscribersOf(topics, PublishName(p.topic));
      BrokerOutside(this, c, subs);
      topics := PublishTopics(topics, p, pack);
      StateKept(c);
      forall k | 0 <= k < |subs|
        ensures subs[k].client.Valid() && subs[k].client.State() == old(subs[k].client.State())
      {
        StateKept(subs[k].client);
      }
      r := DeliverAndAnswer(c, subs, p, mids, pack);
    }
  }

  /** The handlers a client packet can be dispatched to. */
  datatype HandlerKind =
    | OnConnect | OnPublish | OnPuback | OnPubrec | OnPubrel | OnPubcomp
    | OnSubscribe | OnUnsubscribe | OnPingreq | OnDisconnect

  /** The packet type each handler is written for. */
  function HandledType(k: HandlerKind): nat
  {
    match k
    case OnConnect => CONNECT
    case OnPublish => PUBLISH
    case OnPuback => PUBACK
    case OnPubrec => PUBREC
    case OnPubrel => PUBREL
    case OnPubcomp => PUBCOMP
    case OnSubscribe => SUBSCRIBE
    case OnUnsubscribe => UNSUBSCRIBE
    case OnPingreq => PINGREQ
    case OnDisconnect => DISCONNECT
  }

  /** The 15-slot table of handle_command, indexed by packet type: the
      slots of the packets only a broker sends (CONNACK, SUBACK, UNSUBACK,
      PINGRESP) and slot 0 are empty, every other slot holds the handler
      written for that type. */
  function HandlerAt(t: nat): (r: Option<HandlerKind>)
    requires t < 15
    ensures r.None? <==> t == 0 || t == CONNACK || t == SUBACK || t == UNSUBACK || t == PINGRESP
    ensures r.Some? ==> HandledType(r.value) == t
  {
    if t == CONNECT then Some(OnConnect)
    else if t == PUBLISH then Some(OnPublish)
    else if t == PUBACK then Some(OnPuback)
    else if t == PUBREC then Some(OnPubrec)
    else if t == PUBREL then Some(OnPubrel)
    else if t == PUBCOMP then Some(OnPubcomp)
    else if t == SUBSCRIBE then Some(OnSubscribe)
    else if t == UNSUBSCRIBE then Some(OnUnsubscribe)
    else if t == PINGREQ then Some(OnPingreq)
    else if t == DISCONNECT then Some(OnDisconnect)
    else None
  }

  /** Every handler sits in exactly one slot, the one of its type. */
  lemma HandlerSlotUnique(k: HandlerKind, t: nat)
    requires t < 15
    ensures HandlerAt(t) == Some(k) <==> t == HandledType(k)
  {
    if t == HandledType(k) {
      match k
      case OnConnect =>
      case OnPublish =>
      case OnPuback =>
      case OnPubrec =>
      case OnPubrel =>
      case OnPubcomp =>
      case OnSubscribe =>
      case OnUnsubscribe =>
      case OnPingreq =>
      case OnDisconnect =>
    }
  }

  /** What handle_command does with the 4-bit type of a fixed header: it
      calls the handler in that slot, calls through an empty (NULL) slot,
      or, for type 15, reads past the end of the 15-entry table. */
  datatype Dispatch = Calls(kind: HandlerKind) | NullSlot | PastTable

  function HandleCommand(t: nat): (r: Dispatch)
    requires t < 16
    ensures r.PastTable? <==> t == 15
    ensures r.NullSlot? <==> t in {0, CONNACK, SUBACK, UNSUBACK, PINGRESP}
    ensures r.Calls? ==> HandledType(r.kind) == t
  {
    if t >= 15 then PastTable
    else match HandlerAt(t)
      case None => NullSlot
      case Some(k) => Calls(k)
  }

  /** Among the packets this model decodes, the ones that reach an empty
      slot are SUBACK and UNSUBACK; CONNACK, PINGRESP and the types 0 and
      15 have no decoded form here and are covered by HandleCommand. */
  lemma DispatchCoversClientPackets(p: Packet)
    ensures TypeOf(p) < 15
    ensures HandleCommand(TypeOf(p)).NullSlot? <==> p.SubackPacket? || (p.AckPacket? && p.kind == Unsuback)
    ensures HandleCommand(TypeOf(p)).Calls? <==> !(p.SubackPacket? || (p.AckPacket? && p.kind == Unsuback))
  {
  }
}
