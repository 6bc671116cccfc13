/**
 The messages of a connection as packets on the wire. Every message in flight in a reachable
 state has an encoding that is decoded to the same message, so that a network of bytes carries
 exactly what the network of the state machine carries.
 */
module Wire {
  import opened SeqNumber
  import opened OrderedKeys
  import opened Packets
  import opened Connection
  import opened Invariant
  import opened StreamSafety
  import S = SenderModel
  import R = ReceiverModel
  import SB = SndBufferModel
  import C = Codec
  import L = Layout

  /** What the packet constructors of src/control_packet.rs and `as_data_packet` build. */
  function ToPacket(m: Msg, extra: C.AckExtra, timestamp: nat, dest: nat): C.UdtPacket {
    match m
    case DataMsg(p) =>
      C.Data(C.DataPacket(p.seqNumber, p.position, p.inOrder, p.msgNumber, timestamp, dest, p.data))
    case LightAck(next) => C.Control(C.ControlPacket(C.Ack(next, None), 0, 0, 0, dest))
    case FullAck(ack, next) => C.Control(C.ControlPacket(C.Ack(next, Some(extra)), 0, ack, 0, dest))
    case Ack2(ack) => C.Control(C.ControlPacket(C.Ack2, 0, ack, 0, dest))
    case Nak(info) => C.Control(C.ControlPacket(C.Nak(info), 0, 0, 0, dest))
  }

  /** How `process_packet` reads a packet. */
  function FromPacket(p: C.UdtPacket): Option<Msg> {
    match p
    case Data(d) => Some(DataMsg(Packet(d.seqNumber, d.data, d.msgNumber, d.inOrder, d.position)))
    case Control(c) =>
      match c.kind
      case Ack(next, None) => Some(LightAck(next))
      case Ack(next, Some(_)) => Some(FullAck(c.additionalInfo, next))
      case Ack2 => Some(Ack2(c.additionalInfo))
      case Nak(info) => Some(Nak(info))
      case _ => None
  }

  ghost predicate ValidExtra(x: C.AckExtra) {
    C.U32(x.rtt) && C.U32(x.rttVariance) && C.U32(x.availableBufSize) && C.U32(x.packRecvRate) && C.U32(x.linkCapacity)
  }

  /** Message and ACK numbers within their ranges. */
  ghost predicate Small(m: Msg) {
    && (m.DataMsg? ==> m.packet.msgNumber <= MSG_MAX)
    && (m.FullAck? || m.Ack2? ==> m.ack <= ACK_MAX)
  }

  ghost predicate WireInv(c: Sys) {
    && c.snd.buf.nextMsg <= MSG_MAX
    && (forall i :: 0 <= i < |c.snd.buf.blocks| ==> c.snd.buf.blocks[i].msgNumber <= MSG_MAX)
    && (forall m :: m in c.net ==> Small(m))
  }

  lemma FetchIsSmall(s: S.Snd, window: int)
    requires 0 <= s.buf.position <= |s.buf.blocks|
    requires forall i :: 0 <= i < |s.buf.blocks| ==> s.buf.blocks[i].msgNumber <= MSG_MAX
    ensures
      var (packets, s') := S.FetchNew(s, window);
      && s'.buf == s.buf.(position := s'.buf.position)
      && forall p :: p in packets ==> p.msgNumber <= MSG_MAX
  {
  }

  lemma SendIsSmall(s: S.Snd, data: seq<Byte>)
    requires s.buf.payloadSize > 0 && s.buf.nextMsg <= MSG_MAX
    requires forall i :: 0 <= i < |s.buf.blocks| ==> s.buf.blocks[i].msgNumber <= MSG_MAX
    ensures
      var b := S.Send(s, data).1.buf;
      b.nextMsg <= MSG_MAX && forall i :: 0 <= i < |b.blocks| ==> b.blocks[i].msgNumber <= MSG_MAX
  {
    hide SB.Chunks;
  }

  /** The picks, timeouts and ACKs of a sender keep the message numbers of its blocks. */
  lemma SenderIsSmall(s: S.Snd, next: nat)
    requires forall i :: 0 <= i < |s.buf.blocks| ==> s.buf.blocks[i].msgNumber <= MSG_MAX
    ensures S.PickResend(s).1.buf == S.OnExp(s).buf == S.OnLightAck(s, next).buf == s.buf
    ensures
      var b := S.OnFullAck(s, next).buf;
      b.nextMsg == s.buf.nextMsg && forall i :: 0 <= i < |b.blocks| ==> b.blocks[i].msgNumber <= MSG_MAX
  {
    hide Diff;
  }

  lemma NakIsSmall(c: Sys, info: seq<nat>)
    requires (Inv(c) || Stalled(c)) && Nak(info) in c.net
    ensures S.OnNak(c.snd, info).buf == c.snd.buf
  {
    if Inv(c) {
      assert GoodMsg(c, Nak(info));
      NakParts(c, info);
      hide S.OnNak, Inv;
    }
  }

  lemma StepKeepsWire(c: Sys, e: Event)
    requires (Inv(c) || Stalled(c)) && WireInv(c) && Enabled(c, e)
    ensures WireInv(Apply(c, e))
  {
    hide S.PickResend, S.FetchNew, S.OnFullAck, S.OnLightAck, S.OnNak, S.OnExp, S.Send, R.OnData, R.Recv, R.NextMissing;
    hide HistoryInv, BufferInv, LossInv, PendingInv, AckInv, StreamInv, WindowInv, CrossInv;
    match e
    case Send(data) => SendIsSmall(c.snd, data);
    case FetchNew(window) => FetchIsSmall(c.snd, window);
    case PickResend => SenderIsSmall(c.snd, 0);
    case Exp(_) => SenderIsSmall(c.snd, 0);
    case Obey => SenderIsSmall(c.snd, c.obeying.value);
    case ToSender(m, _) =>
      if m.Nak? {
        NakIsSmall(c, m.info);
      } else {
        SenderIsSmall(c.snd, m.next);
        assert Small(m);
      }
    case _ =>
      hide Inv;
  }

  lemma {:induction false} RunKeepsWire(c: Sys, es: seq<Event>)
    requires (Inv(c) || Stalled(c)) && WireInv(c) && Legal(c, es) && AllUndisturbed(c, es)
    ensures WireInv(Run(c, es)) && (Inv(Run(c, es)) || Stalled(Run(c, es)))
    decreases |es|
  {
    hide Inv, Stalled, WireInv;
    if es != [] {
      if Inv(c) {
        StepKeepsInv(c, es[0]);
      } else {
        StalledStep(c, es[0]);
      }
      StepKeepsWire(c, es[0]);
      RunKeepsWire(Apply(c, es[0]), es[1..]);
    }
  }

  /** Sequence numbers within their range, and a NAK of one gap. */
  ghost predicate InRange(m: Msg) {
    match m
    case DataMsg(p) => p.seqNumber <= SEQ_MAX
    case LightAck(next) => next <= SEQ_MAX
    case FullAck(_, next) => next <= SEQ_MAX
    case Ack2(_) => true
    case Nak(info) => exists a, b :: 0 <= a <= b <= SEQ_MAX && info == R.GapInfo(a, b)
  }

  lemma GoodIsInRange(c: Sys, m: Msg)
    requires (Inv(c) || Stalled(c)) && m in c.net
    ensures InRange(m)
  {
    if Inv(c) {
      assert GoodMsg(c, m);
      if m.Nak? {
        var a, b :| c.isn <= a <= b < c.rcv.currRcv && m.info == R.GapInfo(a, b);
        assert 0 <= a <= b <= SEQ_MAX;
      }
    }
  }

  lemma MessageRoundTrip(m: Msg, extra: C.AckExtra, timestamp: nat, dest: nat)
    requires InRange(m) && Small(m)
    requires ValidExtra(extra) && C.U32(timestamp) && C.U32(dest)
    ensures
      var p := ToPacket(m, extra, timestamp, dest);
      && C.ValidPacket(p) && C.Deserialize(C.Serialize(p)) == C.Ok(p) && FromPacket(p) == Some(m)
  {
    var p := ToPacket(m, extra, timestamp, dest);
    if m.Nak? {
      var a, b :| 0 <= a <= b <= SEQ_MAX && m.info == R.GapInfo(a, b);
    }
    assert C.ValidPacket(p);
    C.RoundTripIff(p);
    hide C.Serialize, C.Deserialize;
  }

  /** Where the number and the ACK number of each message lie in its bytes. */
  lemma MessageLayout(m: Msg, extra: C.AckExtra, timestamp: nat, dest: nat)
    requires InRange(m) && Small(m)
    requires ValidExtra(extra) && C.U32(timestamp) && C.U32(dest)
    ensures C.ValidPacket(ToPacket(m, extra, timestamp, dest))
    ensures
      var raw := C.Serialize(ToPacket(m, extra, timestamp, dest));
      && |raw| >= 16 && L.At(raw, 12) == dest
      && match m
         case DataMsg(p) => raw[0] < 0x80 && L.At(raw, 0) == p.seqNumber && raw[16..] == p.data
         case LightAck(next) => raw[0] == 0x80 && raw[1] == 2 && |raw| == 20 && L.At(raw[16..], 0) == next
         case FullAck(ack, next) =>
           && raw[0] == 0x80 && raw[1] == 2 && |raw| == 40 && L.At(raw, 4) == ack && L.At(raw[16..], 0) == next
           && L.At(raw[16..], 12) == extra.availableBufSize
         case Ack2(ack) => raw[0] == 0x80 && raw[1] == 6 && |raw| == 16 && L.At(raw, 4) == ack
         case Nak(info) =>
           && raw[0] == 0x80 && raw[1] == 3 && |raw| == 16 + 4 * |info|
           && forall i :: 0 <= i < |info| ==> L.At(raw[16..], 4 * i) == info[i]
  {
    MessageRoundTrip(m, extra, timestamp, dest);
    var p := ToPacket(m, extra, timestamp, dest);
    hide C.SerializeData, C.SerializeControl, C.Deserialize, L.At, C.Body;
    if m.DataMsg? {
      L.DataLayout(p.packet);
    } else {
      L.ControlLayout(p.ctrl);
      L.BodyLayout(p.ctrl.kind);
    }
  }

  lemma StartsInRange(k: Config)
    requires Sensible(k) && k.sndMaxSize <= SEQ_MOD / 2
    ensures (Inv(Start(k)) || Stalled(Start(k))) && WireInv(Start(k))
  {
    hide Inv;
    if k.isn > 0 {
      hide Stalled;
      StartInv(k);
    } else {
      StalledStart(k);
    }
  }

  lemma StalledStart(k: Config)
    requires Sensible(k) && k.isn == 0
    ensures Stalled(Start(k))
  {
  }

  /**
   In every reachable state every message in flight is decoded from its bytes as what it is,
   whatever measurements, timestamp and destination accompany it.
   */
  lemma WireIsFaithful(k: Config, es: seq<Event>, m: Msg, extra: C.AckExtra, timestamp: nat, dest: nat)
    requires Sensible(k) && k.sndMaxSize <= SEQ_MOD / 2
    requires Legal(Start(k), es) && AllUndisturbed(Start(k), es) && m in Run(Start(k), es).net
    requires ValidExtra(extra) && C.U32(timestamp) && C.U32(dest)
    ensures
      var p := ToPacket(m, extra, timestamp, dest);
      C.ValidPacket(p) && C.Deserialize(C.Serialize(p)) == C.Ok(p) && FromPacket(p) == Some(m)
  {
    var c := Run(Start(k), es);
    StartsInRange(k);
    hide Inv, Stalled, Legal, Run, AllUndisturbed, Start, InRange;
    RunKeepsWire(Start(k), es);
    GoodIsInRange(c, m);
    assert Small(m);
    hide C.Serialize, C.Deserialize, FromPacket, ToPacket;
    MessageRoundTrip(m, extra, timestamp, dest);
  }
}
