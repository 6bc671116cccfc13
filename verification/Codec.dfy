/**
 The wire format: src/packet.rs, src/data_packet.rs and src/control_packet.rs. It follows the
 sections "Packet Structures" and "Loss Information Compression Scheme" of the Internet-Draft
 draft-gg-udt-03. Masks and shifts are written as divisions and remainders. Reading past the
 end of the input panics in the source; here it is the outcome `Panic`.
 */
module Codec {
  import opened SeqNumber
  import opened OrderedKeys
  import opened Packets

  datatype Outcome<+T> = Ok(value: T) | Invalid | Panic

  type Bits = seq<Byte>

  /** `to_be_bytes` and `from_be_bytes` of a u32. */
  function Be32(x: nat): (b: Bits)
    requires x < 0x1_0000_0000
    ensures |b| == 4
  {
    [x / 0x100 / 0x100 / 0x100, x / 0x100 / 0x100 % 0x100, x / 0x100 % 0x100, x % 0x100]
  }

  function Read32(b: Bits): (x: nat)
    requires |b| == 4
    ensures x < 0x1_0000_0000
  {
    var b0: int, b1: int, b2: int, b3: int := b[0], b[1], b[2], b[3];
    ((b0 * 0x100 + b1) * 0x100 + b2) * 0x100 + b3
  }

  lemma Be32Inverse(x: nat)
    requires x < 0x1_0000_0000
    ensures Read32(Be32(x)) == x
  {
  }

  lemma Read32Inverse(b: Bits)
    requires |b| == 4
    ensures Be32(Read32(b)) == b
  {
    var b0: int, b1: int, b2: int, b3: int := b[0], b[1], b[2], b[3];
    assert Read32(b) / 0x100 == (b0 * 0x100 + b1) * 0x100 + b2;
    assert Read32(b) / 0x100 / 0x100 == b0 * 0x100 + b1;
  }

  function Word(b: Bits, at: nat): nat
    requires at + 4 <= |b|
  {
    Read32(b[at..at + 4])
  }

  // ---------------------------------------------------------------- data packets

  datatype DataPacket = DataPacket(seqNumber: nat, position: Position, inOrder: bool, msgNumber: nat,
                                   timestamp: nat, destSocketId: nat, data: Bits)

  ghost predicate ValidData(p: DataPacket) {
    p.seqNumber <= SEQ_MAX && p.msgNumber <= MSG_MAX && p.timestamp < 0x1_0000_0000 && p.destSocketId < 0x1_0000_0000
  }

  function PositionCode(p: Position): nat {
    match p case First => 2 case Last => 1 case Only => 3 case Middle => 0
  }

  function PositionOf(code: nat): Position {
    if code == 2 then First else if code == 1 then Last else if code == 3 then Only else Middle
  }

  function MsgWord(p: DataPacket): nat {
    PositionCode(p.position) * 0x4000_0000 + (if p.inOrder then 0x2000_0000 else 0) + p.msgNumber
  }

  function SerializeData(p: DataPacket): Bits
    requires ValidData(p)
  {
    Be32(p.seqNumber) + Be32(MsgWord(p)) + Be32(p.timestamp) + Be32(p.destSocketId) + p.data
  }

  function DeserializeData(raw: Bits): Outcome<DataPacket> {
    if |raw| < 16 then Panic
    else Ok(DataPacket(Word(raw, 0) % 0x8000_0000, PositionOf(raw[4] / 0x40), raw[4] / 0x20 % 2 == 1,
                       Word(raw, 4) % 0x2000_0000, Word(raw, 8), Word(raw, 12), raw[16..]))
  }

  /** The packed word gives its three fields back. */
  lemma MsgWordFields(p: DataPacket)
    requires ValidData(p)
    ensures MsgWord(p) < 0x1_0000_0000
    ensures
      var top := MsgWord(p) / 0x100 / 0x100 / 0x100;
      && PositionOf(top / 0x40) == p.position && (top / 0x20 % 2 == 1) == p.inOrder
      && MsgWord(p) % 0x2000_0000 == p.msgNumber
  {
    var m := p.msgNumber;
    var code, order := PositionCode(p.position), if p.inOrder then 1 else 0;
    assert MsgWord(p) == code * 0x4000_0000 + order * 0x2000_0000 + m;
    assert MsgWord(p) / 0x100 / 0x100 / 0x100 == code * 0x40 + order * 0x20 + m / 0x100 / 0x100 / 0x100;
  }

  /** Four words followed by a tail, read back. */
  lemma FourWords(a: nat, b: nat, c: nat, d: nat, tail: Bits)
    requires a < 0x1_0000_0000 && b < 0x1_0000_0000 && c < 0x1_0000_0000 && d < 0x1_0000_0000
    ensures
      var raw := Be32(a) + Be32(b) + Be32(c) + Be32(d) + tail;
      && |raw| == 16 + |tail| && raw[16..] == tail
      && Word(raw, 0) == a && Word(raw, 4) == b && Word(raw, 8) == c && Word(raw, 12) == d
      && raw[..4] == Be32(a) && raw[4] == b / 0x100 / 0x100 / 0x100
  {
    hide Read32;
    var raw := Be32(a) + Be32(b) + Be32(c) + Be32(d) + tail;
    assert raw[0..4] == Be32(a) && raw[4..8] == Be32(b) && raw[8..12] == Be32(c) && raw[12..16] == Be32(d);
    assert raw[4] == Be32(b)[0];
    Be32Inverse(a);
    Be32Inverse(b);
    Be32Inverse(c);
    Be32Inverse(d);
  }

  /** A data packet comes back from its encoding, whose first bit is 0. */
  lemma DataRoundTrip(p: DataPacket)
    requires ValidData(p)
    ensures DeserializeData(SerializeData(p)) == Ok(p)
    ensures SerializeData(p)[0] < 0x80
  {
    MsgWordFields(p);
    FourWords(p.seqNumber, MsgWord(p), p.timestamp, p.destSocketId, p.data);
    var raw := SerializeData(p);
    assert raw[0] == Be32(p.seqNumber)[0];
    hide Read32, MsgWord, Word;
  }

  /** Every byte string that decodes as a data packet is the encoding of what it decodes to. */
  lemma DataDecodesOnce(raw: Bits)
    requires |raw| >= 16 && raw[0] < 0x80
    ensures DeserializeData(raw).Ok? && ValidData(DeserializeData(raw).value)
    ensures SerializeData(DeserializeData(raw).value) == raw
  {
    var p := DeserializeData(raw).value;
    assert raw == raw[0..4] + raw[4..8] + raw[8..12] + raw[12..16] + raw[16..];
    FirstBitClear(raw[0..4]);
    UnpackPack(raw[4..8], p);
    Read32Inverse(raw[0..4]);
    Read32Inverse(raw[8..12]);
    Read32Inverse(raw[12..16]);
    hide Read32, Be32, MsgWord;
  }

  lemma FirstBitClear(b: Bits)
    requires |b| == 4 && b[0] < 0x80
    ensures Read32(b) < 0x8000_0000
  {
  }

  lemma UnpackPack(b: Bits, p: DataPacket)
    requires |b| == 4 && p.position == PositionOf(b[0] / 0x40) && p.inOrder == (b[0] / 0x20 % 2 == 1)
    requires p.msgNumber == Read32(b) % 0x2000_0000
    ensures MsgWord(p) == Read32(b) && Be32(MsgWord(p)) == b
  {
    var b0: int, b1: int, b2: int, b3: int := b[0], b[1], b[2], b[3];
    var low := b0 % 0x20 * 0x100_0000 + b1 * 0x1_0000 + b2 * 0x100 + b3;
    TopByte(b0);
    SplitWord(b0 / 0x40, b0 / 0x20 % 2, low);
    Read32Inverse(b);
  }

  lemma TopByte(b0: int)
    requires 0 <= b0 < 0x100
    ensures b0 == b0 / 0x40 * 0x40 + b0 / 0x20 % 2 * 0x20 + b0 % 0x20
    ensures 0 <= b0 / 0x40 < 4
  {
  }

  lemma SplitWord(code: int, order: int, low: int)
    requires 0 <= low < 0x2000_0000
    ensures (code * 0x4000_0000 + order * 0x2000_0000 + low) % 0x2000_0000 == low
  {
  }

  // ---------------------------------------------------------------- control packets

  datatype SocketType = Stream | Datagram

  /** An IP address: 4 octets or 16. */
  datatype IpAddr = V4(octets4: Bits) | V6(octets16: Bits)

  datatype HandShake = HandShake(udtVersion: nat, socketType: SocketType, isn: nat, maxPacketSize: nat,
                                 maxWindowSize: nat, connectionType: int, socketId: nat, synCookie: nat, ip: IpAddr)

  datatype AckExtra = AckExtra(rtt: nat, rttVariance: nat, availableBufSize: nat, packRecvRate: nat, linkCapacity: nat)

  datatype ControlType =
    | Handshake(hs: HandShake)
    | KeepAlive
    | Ack(next: nat, extra: Option<AckExtra>)
    | Nak(lossInfo: seq<nat>)
    | Shutdown
    | Ack2
    | MsgDropRequest(first: nat, last: nat)
    | UserDefined

  datatype ControlPacket = ControlPacket(kind: ControlType, reserved: nat, additionalInfo: nat, timestamp: nat, destSocketId: nat)

  ghost predicate U32(x: int) {
    0 <= x < 0x1_0000_0000
  }

  ghost predicate ValidIp(a: IpAddr) {
    match a case V4(o) => |o| == 4 case V6(o) => |o| == 16
  }

  /** Fields that fit the widths the source stores them in. */
  ghost predicate ValidKind(k: ControlType) {
    match k
    case Handshake(h) =>
      && U32(h.udtVersion) && U32(h.isn) && U32(h.maxPacketSize) && U32(h.maxWindowSize)
      && -0x8000_0000 <= h.connectionType < 0x8000_0000 && U32(h.socketId) && U32(h.synCookie) && ValidIp(h.ip)
    case Ack(next, extra) =>
      && U32(next)
      && (extra.Some? ==>
            && U32(extra.value.rtt) && U32(extra.value.rttVariance) && U32(extra.value.availableBufSize)
            && U32(extra.value.packRecvRate) && U32(extra.value.linkCapacity))
    case Nak(info) => forall i :: 0 <= i < |info| ==> U32(info[i])
    case MsgDropRequest(first, last) => U32(first) && U32(last)
    case _ => true
  }

  ghost predicate ValidControl(p: ControlPacket) {
    ValidKind(p.kind) && p.reserved < 0x1_0000 && U32(p.additionalInfo) && U32(p.timestamp) && U32(p.destSocketId)
  }

  function TypeCode(k: ControlType): (code: nat)
    ensures code <= 0x7fff
  {
    match k
    case Handshake(_) => 0
    case KeepAlive => 1
    case Ack(_, _) => 2
    case Nak(_) => 3
    case Shutdown => 5
    case Ack2 => 6
    case MsgDropRequest(_, _) => 7
    case UserDefined => 0x7fff
  }

  /** A series of u32 values, each big-endian. */
  function Words(xs: seq<nat>): (b: Bits)
    requires forall i :: 0 <= i < |xs| ==> U32(xs[i])
    ensures |b| == 4 * |xs|
  {
    if xs == [] then []
    else
      assert U32(xs[0]);
      Be32(xs[0]) + Words(xs[1..])
  }

  function IpBytes(a: IpAddr): Bits {
    match a
    case V4(o) => o + [0, 0, 0, 0, 0, 0, 0, 0, 0, 0, 0, 0]
    case V6(o) => o
  }

  /** `to_be_bytes` of an i32, by way of the u32 with the same bits. */
  function Unsigned(x: int): int {
    if x < 0 then x + 0x1_0000_0000 else x
  }

  function SocketCode(t: SocketType): nat {
    if t == Stream then 1 else 2
  }

  function HandShakeWords(h: HandShake): seq<nat>
    requires ValidKind(Handshake(h))
  {
    [h.udtVersion, SocketCode(h.socketType), h.isn, h.maxPacketSize, h.maxWindowSize,
     Unsigned(h.connectionType), h.socketId, h.synCookie]
  }

  function Body(k: ControlType): Bits
    requires ValidKind(k)
  {
    match k
    case Handshake(h) => Words(HandShakeWords(h)) + IpBytes(h.ip)
    case Ack(next, None) => Words([next])
    case Ack(next, Some(x)) =>
      Words([next, x.rtt, x.rttVariance, x.availableBufSize, x.packRecvRate, x.linkCapacity])
    case Nak(info) => Words(info)
    case MsgDropRequest(first, last) => Words([first, last])
    case _ => []
  }

  function HeadWord(p: ControlPacket): nat {
    (0x8000 + TypeCode(p.kind)) * 0x1_0000 + p.reserved
  }

  function SerializeControl(p: ControlPacket): Bits
    requires ValidControl(p)
  {
    Be32(HeadWord(p)) + Be32(p.additionalInfo) + Be32(p.timestamp) + Be32(p.destSocketId) + Body(p.kind)
  }

  function AllZero(b: Bits): bool {
    forall i :: 0 <= i < |b| ==> b[i] == 0
  }

  function ReadHandShake(raw: Bits): Outcome<ControlType> {
    if |raw| < 48 then Panic
    else
      var ip := if AllZero(raw[36..48]) then V4(raw[32..36]) else V6(raw[32..48]);
      var code := Word(raw, 4);
      if code != 1 && code != 2 then Invalid
      else
        var ct := Word(raw, 20);
        Ok(Handshake(HandShake(Word(raw, 0), if code == 1 then Stream else Datagram, Word(raw, 8), Word(raw, 12),
                               Word(raw, 16), if ct < 0x8000_0000 then ct else ct - 0x1_0000_0000,
                               Word(raw, 24), Word(raw, 28), ip)))
  }

  function ReadAck(raw: Bits): Outcome<ControlType> {
    if |raw| < 4 then Panic
    else if |raw| <= 4 then Ok(Ack(Word(raw, 0), None))
    else if |raw| < 24 then Panic
    else Ok(Ack(Word(raw, 0), Some(AckExtra(Word(raw, 4), Word(raw, 8), Word(raw, 12), Word(raw, 16), Word(raw, 20)))))
  }

  /** `chunks(4)`, dropping a short last chunk. */
  function ReadWords(raw: Bits): seq<nat> {
    if |raw| < 4 then [] else [Word(raw, 0)] + ReadWords(raw[4..])
  }

  function ReadKind(code: nat, raw: Bits): Outcome<ControlType> {
    match code
    case 0 => ReadHandShake(raw)
    case 1 => Ok(KeepAlive)
    case 2 => ReadAck(raw)
    case 3 => Ok(Nak(ReadWords(raw)))
    case 5 => Ok(Shutdown)
    case 6 => Ok(Ack2)
    case 7 => if |raw| < 8 then Panic else Ok(MsgDropRequest(Word(raw, 0), Word(raw, 4)))
    case 0x7fff => Ok(UserDefined)
    case _ => Invalid
  }

  function DeserializeControl(raw: Bits): Outcome<ControlPacket> {
    if |raw| < 16 then Invalid
    else
      match ReadKind(Word(raw, 0) / 0x1_0000 % 0x8000, raw[16..])
      case Ok(kind) => Ok(ControlPacket(kind, Word(raw, 0) % 0x1_0000, Word(raw, 4), Word(raw, 8), Word(raw, 12)))
      case Invalid => Invalid
      case Panic => Panic
  }

  // ---------------------------------------------------------------- round trips

  lemma {:induction false} WordsAt(xs: seq<nat>, tail: Bits, i: nat)
    requires (forall j :: 0 <= j < |xs| ==> U32(xs[j])) && i < |xs|
    ensures Word(Words(xs) + tail, 4 * i) == xs[i]
  {
    hide Read32, Be32;
    var raw := Words(xs) + tail;
    if i == 0 {
      assert raw[0..4] == Be32(xs[0]);
      Be32Inverse(xs[0]);
    } else {
      WordsAt(xs[1..], tail, i - 1);
      assert raw[4 * i..4 * i + 4] == (Words(xs[1..]) + tail)[4 * (i - 1)..4 * (i - 1) + 4];
    }
  }

  /** Loss lists of any length come back. */
  lemma {:induction false} ReadWordsInverse(xs: seq<nat>)
    requires forall j :: 0 <= j < |xs| ==> U32(xs[j])
    ensures ReadWords(Words(xs)) == xs
  {
    if xs != [] {
      assert Words(xs)[..4] == Be32(xs[0]) && Words(xs)[4..] == Words(xs[1..]);
      Be32Inverse(xs[0]);
      ReadWordsInverse(xs[1..]);
      hide Read32, Be32;
    }
  }

  /** Where the source cannot tell an IPv6 address from an IPv4 one. */
  predicate LooksLikeV4(k: ControlType) {
    k.Handshake? && k.hs.ip.V6? && |k.hs.ip.octets16| == 16 && AllZero(k.hs.ip.octets16[4..])
  }

  /** What the decoder makes of a kind: such an address is read as the IPv4 one. */
  function AsRead(k: ControlType): ControlType {
    if LooksLikeV4(k) then Handshake(k.hs.(ip := V4(k.hs.ip.octets16[..4]))) else k
  }

  lemma HandShakeRoundTrip(h: HandShake)
    requires ValidKind(Handshake(h))
    ensures ReadHandShake(Body(Handshake(h))) == Ok(AsRead(Handshake(h)))
  {
    var xs := HandShakeWords(h);
    var tail := IpBytes(h.ip);
    var raw := Words(xs) + tail;
    WordsAt(xs, tail, 0); WordsAt(xs, tail, 1); WordsAt(xs, tail, 2); WordsAt(xs, tail, 3);
    WordsAt(xs, tail, 4); WordsAt(xs, tail, 5); WordsAt(xs, tail, 6); WordsAt(xs, tail, 7);
    assert raw[32..48] == tail && raw[32..36] == tail[..4] && raw[36..48] == tail[4..];
    IpReadBack(h.ip);
    hide Word, Words, IpBytes, AllZero;
  }

  lemma IpReadBack(a: IpAddr)
    requires ValidIp(a)
    ensures |IpBytes(a)| == 16
    ensures a.V4? ==> AllZero(IpBytes(a)[4..]) && IpBytes(a)[..4] == a.octets4
    ensures a.V6? ==> IpBytes(a) == a.octets16
  {
  }

  lemma AckRoundTrip(next: nat, extra: Option<AckExtra>)
    requires ValidKind(Ack(next, extra))
    ensures ReadAck(Body(Ack(next, extra))) == Ok(Ack(next, extra))
  {
    if extra.Some? {
      var x := extra.value;
      var xs := [next, x.rtt, x.rttVariance, x.availableBufSize, x.packRecvRate, x.linkCapacity];
      WordsAt(xs, [], 0); WordsAt(xs, [], 1); WordsAt(xs, [], 2);
      WordsAt(xs, [], 3); WordsAt(xs, [], 4); WordsAt(xs, [], 5);
      assert Words(xs) + [] == Words(xs);
    } else {
      WordsAt([next], [], 0);
      assert Words([next]) + [] == Words([next]);
    }
    hide Word, Words;
  }

  lemma KindRoundTrip(k: ControlType)
    requires ValidKind(k)
    ensures ReadKind(TypeCode(k), Body(k)) == Ok(AsRead(k))
  {
    match k
    case Handshake(h) => HandShakeRoundTrip(h);
    case Ack(next, extra) => AckRoundTrip(next, extra);
    case Nak(info) => ReadWordsInverse(info);
    case MsgDropRequest(first, last) =>
      WordsAt([first, last], [], 0);
      WordsAt([first, last], [], 1);
      assert Words([first, last]) + [] == Words([first, last]);
      hide Word, Words;
    case _ =>
  }

  /**
   A control packet comes back from its encoding, whose first bit is 1, exactly when it is not a
   handshake with an IPv6 address ending in twelve zero bytes; that one comes back as IPv4.
   */
  lemma ControlRoundTripIff(p: ControlPacket)
    requires ValidControl(p)
    ensures DeserializeControl(SerializeControl(p)) == Ok(p.(kind := AsRead(p.kind)))
    ensures DeserializeControl(SerializeControl(p)) == Ok(p) <==> !LooksLikeV4(p.kind)
    ensures SerializeControl(p)[0] >= 0x80
  {
    FourWords(HeadWord(p), p.additionalInfo, p.timestamp, p.destSocketId, Body(p.kind));
    HeadFields(p);
    KindRoundTrip(p.kind);
    assert SerializeControl(p)[0] == Be32(HeadWord(p))[0];
    hide Word, Body, ReadKind, HeadWord, Read32, AllZero;
  }

  lemma HeadFields(p: ControlPacket)
    requires p.reserved < 0x1_0000
    ensures HeadWord(p) < 0x1_0000_0000 && Be32(HeadWord(p))[0] >= 0x80
    ensures HeadWord(p) / 0x1_0000 % 0x8000 == TypeCode(p.kind) && HeadWord(p) % 0x1_0000 == p.reserved
  {
    var code := TypeCode(p.kind);
    assert HeadWord(p) / 0x1_0000 == 0x8000 + code;
    assert HeadWord(p) / 0x100 / 0x100 == 0x8000 + code;
  }

  // ---------------------------------------------------------------- packets

  datatype UdtPacket = Control(ctrl: ControlPacket) | Data(packet: DataPacket)

  ghost predicate ValidPacket(p: UdtPacket) {
    match p case Control(c) => ValidControl(c) case Data(d) => ValidData(d)
  }

  function Serialize(p: UdtPacket): Bits
    requires ValidPacket(p)
  {
    match p case Control(c) => SerializeControl(c) case Data(d) => SerializeData(d)
  }

  /** Dispatch on the first bit. */
  function Deserialize(raw: Bits): Outcome<UdtPacket> {
    if raw == [] then Invalid
    else if raw[0] / 0x80 == 0 then
      match DeserializeData(raw)
      case Ok(d) => Ok(Data(d))
      case Invalid => Invalid
      case Panic => Panic
    else
      match DeserializeControl(raw)
      case Ok(c) => Ok(Control(c))
      case Invalid => Invalid
      case Panic => Panic
  }

  /** What a packet is taken for by the other end. */
  function Received(p: UdtPacket): UdtPacket {
    if p.Control? then Control(p.ctrl.(kind := AsRead(p.ctrl.kind))) else p
  }

  /** Deserialising a serialised packet gives it back, with the one exception. */
  lemma RoundTripIff(p: UdtPacket)
    requires ValidPacket(p)
    ensures Deserialize(Serialize(p)) == Ok(Received(p))
    ensures Deserialize(Serialize(p)) == Ok(p) <==> !(p.Control? && LooksLikeV4(p.ctrl.kind))
  {
    if p.Data? {
      DataRoundTrip(p.packet);
    } else {
      ControlRoundTripIff(p.ctrl);
    }
    hide SerializeData, SerializeControl, DeserializeData, DeserializeControl;
  }

  /** Handshakes alike except that one has an IPv4 address and the other the same bytes as IPv6. */
  predicate Twins(p: UdtPacket, q: UdtPacket) {
    && p.Control? && p.ctrl.kind.Handshake? && p.ctrl.kind.hs.ip.V4?
    && q.Control? && q.ctrl.kind.Handshake? && q.ctrl.kind.hs.ip.V6?
    && IpBytes(p.ctrl.kind.hs.ip) == IpBytes(q.ctrl.kind.hs.ip)
    && q.ctrl.(kind := Handshake(q.ctrl.kind.hs.(ip := p.ctrl.kind.hs.ip))) == p.ctrl
  }

  lemma TwinsShareBytes(p: UdtPacket, q: UdtPacket)
    requires ValidPacket(p) && ValidPacket(q) && Twins(p, q)
    ensures Serialize(p) == Serialize(q)
  {
    hide Words, Be32, IpBytes;
    assert HandShakeWords(p.ctrl.kind.hs) == HandShakeWords(q.ctrl.kind.hs);
    assert HeadWord(p.ctrl) == HeadWord(q.ctrl);
  }

  /** Packets taken for the same are equal or twins. */
  lemma SameReceived(p: UdtPacket, q: UdtPacket)
    requires ValidPacket(p) && ValidPacket(q) && Received(p) == Received(q)
    ensures p == q || Twins(p, q) || Twins(q, p)
  {
    if p.Control? && q.Control? && p.ctrl.kind.Handshake? && q.ctrl.kind.Handshake? {
      SameAddress(p.ctrl.kind.hs.ip, q.ctrl.kind.hs.ip);
      hide IpBytes, AllZero;
    }
  }

  lemma SameAddress(a: IpAddr, b: IpAddr)
    requires ValidIp(a) && ValidIp(b)
    ensures a.V6? && AllZero(a.octets16[4..]) && b.V4? && a.octets16[..4] == b.octets4 ==> IpBytes(a) == IpBytes(b)
    ensures b.V6? && AllZero(b.octets16[4..]) && a.V4? && b.octets16[..4] == a.octets4 ==> IpBytes(a) == IpBytes(b)
    ensures a.V6? && b.V6? && AllZero(a.octets16[4..]) && AllZero(b.octets16[4..]) && a.octets16[..4] == b.octets16[..4] ==>
      a == b
  {
    hide IpBytes;
    ZeroTail(a, b);
    ZeroTail(b, a);
    if a.V6? && b.V6? {
      assert a.octets16 == a.octets16[..4] + a.octets16[4..];
      assert b.octets16 == b.octets16[..4] + b.octets16[4..];
    }
  }

  lemma ZeroTail(a: IpAddr, b: IpAddr)
    requires ValidIp(a) && ValidIp(b)
    ensures a.V6? && AllZero(a.octets16[4..]) && b.V4? && a.octets16[..4] == b.octets4 ==> IpBytes(a) == IpBytes(b)
  {
    if a.V6? && b.V4? {
      assert a.octets16 == a.octets16[..4] + a.octets16[4..];
    }
  }

  /**
   Two packets have the same bytes if and only if they are the same packet, or handshakes that
   are alike except for an address that is IPv4 in one and the same bytes as IPv6 in the other.
   */
  lemma EncodingsAreDistinct(p: UdtPacket, q: UdtPacket)
    requires ValidPacket(p) && ValidPacket(q)
    ensures Serialize(p) == Serialize(q) <==> p == q || Twins(p, q) || Twins(q, p)
  {
    hide Serialize, Deserialize, Received, Twins;
    RoundTripIff(p);
    RoundTripIff(q);
    if Twins(p, q) {
      TwinsShareBytes(p, q);
    }
    if Twins(q, p) {
      TwinsShareBytes(q, p);
    }
    if Serialize(p) == Serialize(q) {
      SameReceived(p, q);
    }
  }

  /** Data and control packets never share an encoding. */
  lemma KindsAreDisjoint(c: ControlPacket, d: DataPacket)
    requires ValidControl(c) && ValidData(d)
    ensures SerializeControl(c) != SerializeData(d)
  {
    ControlRoundTripIff(c);
    DataRoundTrip(d);
    hide SerializeControl, SerializeData;
  }
}
