/** Wire-level vocabulary shared by the handlers: packet types, QoS levels,
    CONNACK return codes and the fixed-size replies the broker writes
    (section numbers refer to MQTT 3.1.1). PUBLISH and SUBACK have a
    variable length; their encoding is left to a `pack` function that the
    handlers receive as a parameter. */
module Mqtt {

  type byte = x: int | 0 <= x < 0x100
  /** Packet identifiers are unsigned 16-bit values. */
  type PktId = x: int | 0 <= x < 0x1_0000
  /** The two QoS bits of a fixed header; 3 is reserved but representable. */
  type QosBits = x: int | 0 <= x < 4

  datatype Option<+T> = None | Some(value: T)

  const AT_MOST_ONCE: QosBits := 0
  const AT_LEAST_ONCE: QosBits := 1
  const EXACTLY_ONCE: QosBits := 2

  // Control packet types (section 2.2.1)
  const CONNECT: nat := 1
  const CONNACK: nat := 2
  const PUBLISH: nat := 3
  const PUBACK: nat := 4
  const PUBREC: nat := 5
  const PUBREL: nat := 6
  const PUBCOMP: nat := 7
  const SUBSCRIBE: nat := 8
  const SUBACK: nat := 9
  const UNSUBSCRIBE: nat := 10
  const UNSUBACK: nat := 11
  const PINGREQ: nat := 12
  const PINGRESP: nat := 13
  const DISCONNECT: nat := 14

  /** Length of CONNACK, PUBACK, PUBREC, PUBREL, PUBCOMP and UNSUBACK. */
  const MQTT_ACK_LEN: nat := 4
  /** Length of a packet made of the fixed header alone (PINGRESP). */
  const MQTT_HEADER_LEN: nat := 2

  const CONNACK_B: byte := 0x20
  const PINGRESP_B: byte := 0xD0

  // CONNACK return codes (section 3.2.2.3)
  const MQTT_CONNECTION_ACCEPTED: byte := 0
  const MQTT_BAD_USERNAME_OR_PASSWORD: byte := 4
  const MQTT_NOT_AUTHORIZED: byte := 5

  /** The four-byte acknowledgements the broker sends or receives. */
  datatype AckKind = Puback | Pubrec | Pubrel | Pubcomp | Unsuback

  /** First byte of each acknowledgement (sections 3.4-3.7 and 3.11);
      PUBREL carries the fixed flags 0b0010. */
  function AckHeader(k: AckKind): byte
  {
    match k
    case Puback => 0x40
    case Pubrec => 0x50
    case Pubrel => 0x62
    case Pubcomp => 0x70
    case Unsuback => 0xB0
  }

  function AckKindOf(b: byte): (r: Option<AckKind>)
    ensures r.Some? ==> AckHeader(r.value) == b
    ensures forall k :: AckHeader(k) == b ==> r == Some(k)
  {
    if b == 0x40 then Some(Puback)
    else if b == 0x50 then Some(Pubrec)
    else if b == 0x62 then Some(Pubrel)
    else if b == 0x70 then Some(Pubcomp)
    else if b == 0xB0 then Some(Unsuback)
    else None
  }

  /** Packet identifier in network byte order. */
  function IdBytes(id: PktId): (b: seq<byte>)
    ensures |b| == 2 && b[0] as int * 0x100 + b[1] as int == id
  {
    [id / 0x100, id % 0x100]
  }

  /** An acknowledgement: type byte, remaining length 2, packet identifier. */
  function AckBytes(k: AckKind, id: PktId): (b: seq<byte>)
    ensures |b| == MQTT_ACK_LEN
  {
    [AckHeader(k), 2] + IdBytes(id)
  }

  function DecodeAck(b: seq<byte>): Option<(AckKind, PktId)>
  {
    if |b| != MQTT_ACK_LEN || b[1] != 2 then None
    else match AckKindOf(b[0])
      case None => None
      case Some(k) => Some((k, (b[2] as int * 0x100 + b[3] as int) as PktId))
  }

  lemma AckRoundTrip(k: AckKind, id: PktId)
    ensures DecodeAck(AckBytes(k, id)) == Some((k, id))
  {
  }

  lemma AckDecodeExact(b: seq<byte>, k: AckKind, id: PktId)
    requires DecodeAck(b) == Some((k, id))
    ensures AckBytes(k, id) == b
  {
  }

  /** CONNACK (section 3.2): fixed header 0x20 0x02, the acknowledge flags
      byte whose bit 0 is session-present, then the return code. */
  function ConnackBytes(sessionPresent: bool, rc: byte): (b: seq<byte>)
    ensures |b| == MQTT_ACK_LEN
  {
    [CONNACK_B, 2, if sessionPresent then 1 else 0, rc]
  }

  /** What a client reads back from a CONNACK: the session-present bit and
      the return code; None when the bytes are not a CONNACK. */
  function DecodeConnack(b: seq<byte>): Option<(bool, byte)>
  {
    if |b| != MQTT_ACK_LEN || b[0] != CONNACK_B || b[1] != 2 || b[2] > 1 then None
    else Some((b[2] == 1, b[3]))
  }

  lemma ConnackRoundTrip(sessionPresent: bool, rc: byte)
    ensures DecodeConnack(ConnackBytes(sessionPresent, rc)) == Some((sessionPresent, rc))
  {
  }

  lemma ConnackDecodeExact(b: seq<byte>, sessionPresent: bool, rc: byte)
    requires DecodeConnack(b) == Some((sessionPresent, rc))
    ensures ConnackBytes(sessionPresent, rc) == b
  {
  }

  /** PINGRESP (section 3.13): a fixed header with remaining length 0. */
  function PingrespBytes(): (b: seq<byte>)
    ensures |b| == MQTT_HEADER_LEN
  {
    [PINGRESP_B, 0]
  }

  datatype ConnectFlags = ConnectFlags(
    cleanSession: bool,
    will: bool,
    willQos: QosBits,
    willRetain: bool,
    password: bool,
    username: bool)

  /** A decoded CONNECT; strings absent from the packet are empty. */
  datatype Connect = Connect(
    flags: ConnectFlags,
    keepalive: nat,
    clientId: seq<char>,
    username: seq<char>,
    password: seq<char>,
    willTopic: seq<char>,
    willMessage: seq<byte>)

  datatype Publish = Publish(
    dup: bool,
    qos: QosBits,
    retain: bool,
    topic: seq<char>,
    pktId: PktId,
    payload: seq<byte>)

  /** One (topic filter, requested QoS) pair of a SUBSCRIBE. */
  datatype Tuple = Tuple(topic: seq<char>, qos: byte)

  /** The decoded contents of an event, one variant per packet shape. */
  datatype Packet =
    | ConnectPacket(connect: Connect)
    | PublishPacket(publish: Publish)
    | AckPacket(kind: AckKind, id: PktId)
    | SubscribePacket(subId: PktId, tuples: seq<Tuple>)
    | UnsubscribePacket(unsubId: PktId, filters: seq<seq<char>>)
    | SubackPacket(subackId: PktId, rcs: seq<byte>)
    | PingreqPacket
    | DisconnectPacket

  /** The control packet type a decoded packet carries. */
  function TypeOf(p: Packet): nat
  {
    match p
    case ConnectPacket(_) => CONNECT
    case PublishPacket(_) => PUBLISH
    case AckPacket(k, _) =>
      (match k
       case Puback => PUBACK
       case Pubrec => PUBREC
       case Pubrel => PUBREL
       case Pubcomp => PUBCOMP
       case Unsuback => UNSUBACK)
    case SubscribePacket(_, _) => SUBSCRIBE
    case UnsubscribePacket(_, _) => UNSUBSCRIBE
    case SubackPacket(_, _) => SUBACK
    case PingreqPacket => PINGREQ
    case DisconnectPacket => DISCONNECT
  }
}
