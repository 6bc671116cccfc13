/**
 Where the fields of a packet lie on the wire, byte by byte and apart from the decoder: the
 sections "Packet Structures" and "Control Packets" of the Internet-Draft draft-gg-udt-03.
 */
module Layout {
  import opened SeqNumber
  import opened OrderedKeys
  import opened Packets
  import opened Codec

  /** The 32-bit value at an offset, most significant byte first. */
  function At(raw: Bits, i: nat): nat
    requires i + 4 <= |raw|
  {
    var b0: int, b1: int, b2: int, b3: int := raw[i], raw[i + 1], raw[i + 2], raw[i + 3];
    b0 * 0x100_0000 + b1 * 0x1_0000 + b2 * 0x100 + b3
  }

  /** The 16-bit value of two bytes. */
  function Half(high: Byte, low: Byte): nat {
    var h: int, l: int := high, low;
    h * 0x100 + l
  }

  lemma AtIsWord(raw: Bits, i: nat)
    requires i + 4 <= |raw|
    ensures At(raw, i) == Word(raw, i)
  {
  }

  /** The header of a data packet: its number, then position, order and message number in one word. */
  lemma DataLayout(p: DataPacket)
    requires ValidData(p)
    ensures
      var raw := SerializeData(p);
      && |raw| == 16 + |p.data| && raw[16..] == p.data && raw[0] < 0x80
      && At(raw, 0) == p.seqNumber && At(raw, 8) == p.timestamp && At(raw, 12) == p.destSocketId
      && (p.position == First <==> raw[4] / 0x40 == 2) && (p.position == Last <==> raw[4] / 0x40 == 1)
      && (p.position == Only <==> raw[4] / 0x40 == 3) && (p.position == Middle <==> raw[4] / 0x40 == 0)
      && (p.inOrder <==> raw[4] / 0x20 % 2 == 1) && At(raw, 4) % 0x2000_0000 == p.msgNumber
  {
    MsgWordFields(p);
    DataRoundTrip(p);
    FourWords(p.seqNumber, MsgWord(p), p.timestamp, p.destSocketId, p.data);
    var raw := SerializeData(p);
    AtIsWord(raw, 0); AtIsWord(raw, 4); AtIsWord(raw, 8); AtIsWord(raw, 12);
    PositionBits(p);
    hide At, Word, MsgWord, SerializeData, DeserializeData, Be32;
  }

  lemma PositionBits(p: DataPacket)
    requires ValidData(p)
    ensures MsgWord(p) / 0x100 / 0x100 / 0x100 / 0x40 ==
      match p.position case Middle => 0 case Last => 1 case First => 2 case Only => 3
  {
    var m := p.msgNumber;
    var code, order := PositionCode(p.position), if p.inOrder then 1 else 0;
    assert MsgWord(p) == code * 0x4000_0000 + order * 0x2000_0000 + m;
    assert MsgWord(p) / 0x100 / 0x100 / 0x100 == code * 0x40 + order * 0x20 + m / 0x100 / 0x100 / 0x100;
  }

  /** The two type bytes of a control packet. */
  ghost predicate TypeBytes(k: ControlType, high: Byte, low: Byte) {
    match k
    case Handshake(_) => high == 0x80 && low == 0
    case KeepAlive => high == 0x80 && low == 1
    case Ack(_, _) => high == 0x80 && low == 2
    case Nak(_) => high == 0x80 && low == 3
    case Shutdown => high == 0x80 && low == 5
    case Ack2 => high == 0x80 && low == 6
    case MsgDropRequest(_, _) => high == 0x80 && low == 7
    case UserDefined => high == 0xff && low == 0xff
  }

  /** The header of a control packet. */
  lemma ControlLayout(p: ControlPacket)
    requires ValidControl(p)
    ensures
      var raw := SerializeControl(p);
      && |raw| == 16 + |Body(p.kind)| && raw[16..] == Body(p.kind)
      && TypeBytes(p.kind, raw[0], raw[1]) && Half(raw[2], raw[3]) == p.reserved
      && At(raw, 4) == p.additionalInfo && At(raw, 8) == p.timestamp && At(raw, 12) == p.destSocketId
  {
    HeadFields(p);
    FourWords(HeadWord(p), p.additionalInfo, p.timestamp, p.destSocketId, Body(p.kind));
    var raw := SerializeControl(p);
    AtIsWord(raw, 4); AtIsWord(raw, 8); AtIsWord(raw, 12);
    HeadBytes(p);
    assert raw[..4] == Be32(HeadWord(p));
    assert raw[0] == Be32(HeadWord(p))[0] && raw[1] == Be32(HeadWord(p))[1];
    assert raw[2] == Be32(HeadWord(p))[2] && raw[3] == Be32(HeadWord(p))[3];
    hide At, Word, HeadWord, SerializeControl, Be32, Body;
  }

  lemma HeadBytes(p: ControlPacket)
    requires p.reserved < 0x1_0000 && HeadWord(p) < 0x1_0000_0000
    ensures
      var b := Be32(HeadWord(p));
      TypeBytes(p.kind, b[0], b[1]) && Half(b[2], b[3]) == p.reserved
  {
    var code := 0x8000 + TypeCode(p.kind);
    assert HeadWord(p) / 0x100 == code * 0x100 + p.reserved / 0x100;
    assert HeadWord(p) / 0x100 / 0x100 == code;
  }

  lemma BodyWord(xs: seq<nat>, tail: Bits, i: nat)
    requires (forall j :: 0 <= j < |xs| ==> U32(xs[j])) && i < |xs|
    ensures At(Words(xs) + tail, 4 * i) == xs[i]
  {
    WordsAt(xs, tail, i);
    AtIsWord(Words(xs) + tail, 4 * i);
  }

  lemma BodyWords(xs: seq<nat>)
    requires forall j :: 0 <= j < |xs| ==> U32(xs[j])
    ensures |Words(xs)| == 4 * |xs| && forall i :: 0 <= i < |xs| ==> At(Words(xs), 4 * i) == xs[i]
  {
    forall i | 0 <= i < |xs|
      ensures At(Words(xs), 4 * i) == xs[i]
    {
      BodyWord(xs, [], i);
      assert Words(xs) + [] == Words(xs);
    }
  }

  /** The body of a handshake: eight words and sixteen address bytes. */
  lemma HandShakeLayout(h: HandShake)
    requires ValidKind(Handshake(h))
    ensures
      var raw := Body(Handshake(h));
      && |raw| == 48
      && At(raw, 0) == h.udtVersion && At(raw, 4) == (match h.socketType case Stream => 1 case Datagram => 2)
      && At(raw, 8) == h.isn && At(raw, 12) == h.maxPacketSize && At(raw, 16) == h.maxWindowSize
      && At(raw, 20) == (if h.connectionType < 0 then 0x1_0000_0000 + h.connectionType else h.connectionType)
      && At(raw, 24) == h.socketId && At(raw, 28) == h.synCookie
      && raw[32..] == (match h.ip case V4(o) => o + seq(12, _ => 0) case V6(o) => o)
  {
    var xs, tail := HandShakeWords(h), IpBytes(h.ip);
    BodyWord(xs, tail, 0); BodyWord(xs, tail, 1); BodyWord(xs, tail, 2); BodyWord(xs, tail, 3);
    BodyWord(xs, tail, 4); BodyWord(xs, tail, 5); BodyWord(xs, tail, 6); BodyWord(xs, tail, 7);
    var raw := Words(xs) + tail;
    assert raw[32..] == tail;
    hide At, Words;
  }

  /** The bodies of the other kinds. */
  lemma BodyLayout(k: ControlType)
    requires ValidKind(k) && !k.Handshake?
    ensures
      var raw := Body(k);
      match k
      case Ack(next, None) => |raw| == 4 && At(raw, 0) == next
      case Ack(next, Some(x)) =>
        && |raw| == 24 && At(raw, 0) == next && At(raw, 4) == x.rtt && At(raw, 8) == x.rttVariance
        && At(raw, 12) == x.availableBufSize && At(raw, 16) == x.packRecvRate && At(raw, 20) == x.linkCapacity
      case Nak(info) => |raw| == 4 * |info| && forall i :: 0 <= i < |info| ==> At(raw, 4 * i) == info[i]
      case MsgDropRequest(first, last) => |raw| == 8 && At(raw, 0) == first && At(raw, 4) == last
      case _ => raw == []
  {
    hide At, Words;
    match k
    case Ack(next, None) => BodyWord([next], [], 0); BodyWords([next]);
    case Ack(next, Some(x)) =>
      var xs := [next, x.rtt, x.rttVariance, x.availableBufSize, x.packRecvRate, x.linkCapacity];
      BodyWords(xs);
      assert At(Words(xs), 4 * 0) == xs[0] && At(Words(xs), 4 * 1) == xs[1] && At(Words(xs), 4 * 2) == xs[2];
      assert At(Words(xs), 4 * 3) == xs[3] && At(Words(xs), 4 * 4) == xs[4] && At(Words(xs), 4 * 5) == xs[5];
    case Nak(info) => BodyWords(info);
    case MsgDropRequest(first, last) =>
      BodyWords([first, last]);
      assert At(Words([first, last]), 4 * 0) == first && At(Words([first, last]), 4 * 1) == last;
    case _ =>
  }

  // ---------------------------------------------------------------- what the decoder does with any bytes

  /** The type of a control packet, without the first bit. */
  function TypeOf(raw: Bits): int
    requires |raw| >= 2
  {
    Half(raw[0], raw[1]) - 0x8000
  }

  predicate Known(code: int) {
    0 <= code <= 3 || 5 <= code <= 7 || code == 0x7fff
  }

  /** Control packets whose body is shorter than what is read from it. */
  predicate CutShort(raw: Bits)
    requires |raw| >= 16
  {
    var code := TypeOf(raw);
    (code == 0 && |raw| < 64) || (code == 2 && (|raw| < 20 || 20 < |raw| < 40)) || (code == 7 && |raw| < 24)
  }

  lemma CodeIsType(raw: Bits)
    requires |raw| >= 16 && raw[0] >= 0x80
    ensures Word(raw, 0) / 0x1_0000 % 0x8000 == TypeOf(raw) && 0 <= TypeOf(raw) <= 0x7fff
    ensures Word(raw, 0) % 0x1_0000 == Half(raw[2], raw[3])
  {
    AtIsWord(raw, 0);
    var high, low := Half(raw[0], raw[1]), Half(raw[2], raw[3]);
    assert At(raw, 0) == high * 0x1_0000 + low;
    hide At, Half, Word;
    assert 0 <= low < 0x1_0000 && 0x8000 <= high < 0x1_0000 by {
      HalfBounds(raw[0], raw[1]);
      HalfBounds(raw[2], raw[3]);
    }
  }

  lemma HalfBounds(high: Byte, low: Byte)
    ensures 0 <= Half(high, low) < 0x1_0000 && (high >= 0x80 ==> Half(high, low) >= 0x8000)
  {
  }

  /**
   For every byte string: decoding panics exactly on a data packet shorter than its header and on a
   control packet cut short in its body; it is refused exactly when it is empty, a control packet
   shorter than its header, of an unknown type, or a handshake for an unknown kind of socket.
   Everything else is decoded, by its first bit.
   */
  lemma DecodeOutcome(raw: Bits)
    ensures Deserialize(raw).Panic? <==>
      raw != [] && (if raw[0] < 0x80 then |raw| < 16 else |raw| >= 16 && CutShort(raw))
    ensures Deserialize(raw).Invalid? <==>
      || raw == []
      || (raw[0] >= 0x80
          && (|raw| < 16 || !Known(TypeOf(raw))
              || (TypeOf(raw) == 0 && |raw| >= 64 && At(raw, 20) != 1 && At(raw, 20) != 2)))
    ensures Deserialize(raw).Ok? ==> (Deserialize(raw).value.Data? <==> raw[0] < 0x80)
  {
    if |raw| >= 16 && raw[0] >= 0x80 {
      CodeIsType(raw);
      var body := raw[16..];
      if |raw| >= 64 {
        assert body[4..8] == raw[20..24];
        AtIsWord(raw, 20);
        assert Word(body, 4) == At(raw, 20);
      }
      hide Word, At, Half, AllZero, ReadWords;
    }
  }

  /** What is decoded from a control packet stands where `ControlLayout` puts it. */
  lemma DecodedControl(raw: Bits)
    requires |raw| >= 16 && raw[0] >= 0x80 && DeserializeControl(raw).Ok?
    ensures
      var p := DeserializeControl(raw).value;
      && TypeBytes(p.kind, raw[0], raw[1]) && p.reserved == Half(raw[2], raw[3])
      && p.additionalInfo == At(raw, 4) && p.timestamp == At(raw, 8) && p.destSocketId == At(raw, 12)
  {
    CodeIsType(raw);
    AtIsWord(raw, 4); AtIsWord(raw, 8); AtIsWord(raw, 12);
    SplitType(raw[0], raw[1]);
    hide Word, At, Half, AllZero, ReadWords;
  }

  lemma SplitType(high: Byte, low: Byte)
    ensures 0x8000 <= Half(high, low) < 0x8100 ==> high == 0x80 && low == Half(high, low) - 0x8000
    ensures Half(high, low) == 0xffff ==> high == 0xff && low == 0xff
  {
    var h: int, l: int := high, low;
    assert h <= 0x7f || h == 0x80 || h >= 0x81;
  }
}
