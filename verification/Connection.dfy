/**
 One direction of a connection: a sender, a receiver and a network between them, as a state
 machine. Every message ever sent and not lost stays deliverable, any number of times and in
 any order. Timers, pacing, window sizes and the moments at which sockets close are free
 choices carried by the events.
 */
module Connection {
  import opened SeqNumber
  import opened OrderedKeys
  import opened Packets
  import S = SenderModel
  import R = ReceiverModel
  import SB = SndBufferModel

  datatype Msg =
    | DataMsg(packet: Packet)
    | LightAck(next: nat)
    | FullAck(ack: nat, next: nat)
    | Ack2(ack: nat)
    | Nak(info: seq<nat>)

  /** What the two ends are configured with. */
  datatype Config = Config(isn: nat, sndMaxSize: nat, payloadSize: nat, rcvMaxSize: nat, connecting: bool)

  /**
   The joint state. `pending` is a retransmission picked but not yet read from the buffer;
   `obeying` is the number of a full ACK that has been answered but not yet carried out. The
   last five fields are a record of the run: the messages accepted by `send`, the blocks they
   were cut into, the numbers admitted by the receiver, the bytes read by the application, and
   the number carried by each full ACK.
   */
  datatype Sys = Sys(isn: nat, snd: S.Snd, pending: Option<S.Resend>, obeying: Option<nat>, rcv: R.Rcv, net: set<Msg>,
                     messages: seq<seq<Byte>>, history: seq<Block>, received: set<nat>,
                     delivered: seq<Byte>, acks: seq<nat>)

  datatype Event =
    | Send(data: seq<Byte>)
    | PickResend
    | ReadResend
    | FetchNew(window: int)
    | ToSender(m: Msg, confirm: bool)
    | Obey
    | ToReceiver(m: Msg)
    | Lose(m: Msg)
    | Exp(giveUp: bool)
    | SendAck(light: bool, recent: bool)
    | Recv(room: nat)
    | CloseSender(status: S.Status)
    | CloseReceiver(status: S.Status)

  function Start(k: Config): Sys {
    Sys(k.isn, S.Initial(k.isn, k.sndMaxSize, k.payloadSize), None, None,
        R.InitialRcv(k.isn, k.rcvMaxSize, k.connecting), {}, [], [], {}, [], [])
  }

  /** The demands of the source: a payload size above 0, and numbers within their range. */
  predicate Sensible(k: Config) {
    k.isn <= SEQ_MAX && k.payloadSize > 0
  }

  predicate Enabled(c: Sys, e: Event) {
    match e
    case Send(_) => c.snd.buf.payloadSize > 0
    case PickResend => c.snd.status.IsAlive() && c.pending.None?
    case ReadResend => c.pending.Some?
    case FetchNew(_) =>
      c.snd.status.IsAlive() && c.pending.None? && 0 <= c.snd.buf.position <= |c.snd.buf.blocks|
    case ToSender(m, _) =>
      m in c.net && c.snd.status.IsAlive() && (m.LightAck? || m.Nak? || (m.FullAck? && c.obeying.None?))
    case Obey => c.obeying.Some?
    case ToReceiver(m) => m in c.net && c.rcv.status.IsAlive() && (m.DataMsg? || m.Ack2?)
    case Lose(m) => m in c.net
    case Exp(_) => c.snd.status.IsAlive()
    case SendAck(_, _) => c.rcv.status.IsAlive() && c.rcv.window.size > 0
    case Recv(_) => true
    case CloseSender(status) => !status.IsAlive()
    case CloseReceiver(status) => !status.IsAlive()
  }

  function DataMsgs(packets: seq<Packet>): set<Msg> {
    set p | p in packets :: DataMsg(p)
  }

  function AfterSend(c: Sys, data: seq<Byte>): Sys
    requires c.snd.buf.payloadSize > 0
  {
    var (accepted, snd) := S.Send(c.snd, data);
    if accepted && data != [] then
      c.(snd := snd, messages := c.messages + [data],
         history := c.history + SB.Segment(data, c.snd.buf.payloadSize, c.snd.buf.nextMsg, false))
    else c
  }

  function AfterReadResend(c: Sys): Sys
    requires c.pending.Some?
  {
    var sent := S.ReadResend(c.snd, c.pending.value);
    c.(pending := None, net := if sent.Some? then c.net + {DataMsg(sent.value)} else c.net)
  }

  function AfterFetch(c: Sys, window: int): Sys
    requires 0 <= c.snd.buf.position <= |c.snd.buf.blocks|
  {
    var (packets, snd) := S.FetchNew(c.snd, window);
    c.(snd := snd, net := c.net + DataMsgs(packets))
  }

  /** The ACK handler answers with an ACK2 first; `Obey` is the rest of the handler. */
  function AfterToSender(c: Sys, m: Msg, confirm: bool): Sys
    requires m.LightAck? || m.FullAck? || m.Nak?
  {
    match m
    case LightAck(next) => c.(snd := S.OnLightAck(c.snd, next))
    case FullAck(ack, next) => c.(obeying := Some(next), net := if confirm then c.net + {Ack2(ack)} else c.net)
    case Nak(info) => c.(snd := S.OnNak(c.snd, info))
  }

  function AfterData(c: Sys, p: Packet): Sys {
    var (rcv, nak) := R.OnData(c.rcv, p);
    c.(rcv := rcv,
       received := if R.Admits(c.rcv, p.seqNumber) then c.received + {p.seqNumber} else c.received,
       net := if nak.Some? then c.net + {Nak(nak.value)} else c.net)
  }

  function AfterSendAck(c: Sys, light: bool, recent: bool): Sys
    requires c.rcv.window.size > 0
  {
    var (rcv, message) := R.SendAck(c.rcv, light, recent);
    match message
    case None => c.(rcv := rcv)
    case Some(Light(next)) => c.(rcv := rcv, net := c.net + {LightAck(next)})
    case Some(Full(ack, next)) => c.(rcv := rcv, net := c.net + {FullAck(ack, next)}, acks := c.acks + [next])
  }

  function AfterRecv(c: Sys, room: nat): Sys {
    var (result, rcv) := R.Recv(c.rcv, room);
    c.(rcv := rcv, delivered := if result.Delivered? then c.delivered + result.data else c.delivered)
  }

  function Apply(c: Sys, e: Event): Sys
    requires Enabled(c, e)
  {
    match e
    case Send(data) => AfterSend(c, data)
    case PickResend => c.(pending := S.PickResend(c.snd).0, snd := S.PickResend(c.snd).1)
    case ReadResend => AfterReadResend(c)
    case FetchNew(window) => AfterFetch(c, window)
    case ToSender(m, confirm) => AfterToSender(c, m, confirm)
    case Obey => c.(obeying := None, snd := S.OnFullAck(c.snd, c.obeying.value))
    case ToReceiver(m) =>
      if m.DataMsg? then AfterData(c, m.packet) else c.(rcv := R.OnAck2(c.rcv, m.ack))
    case Lose(m) => c.(net := c.net - {m})
    case Exp(giveUp) => c.(snd := if giveUp then c.snd.(status := S.Broken) else S.OnExp(c.snd))
    case SendAck(light, recent) => AfterSendAck(c, light, recent)
    case Recv(room) => AfterRecv(c, room)
    case CloseSender(status) => c.(snd := c.snd.(status := status))
    case CloseReceiver(status) => c.(rcv := c.rcv.(status := status))
  }

  /**
   The picked retransmission has gone stale: full ACKs have shifted the send buffer since its
   offset was computed, without passing its number, and the offset still finds a block.
   */
  predicate Stale(c: Sys) {
    && c.pending.Some?
    && 0 <= c.pending.value.offset < |c.snd.buf.blocks|
    && c.snd.lastDataAckProcessed <= c.pending.value.seqNumber
    && c.pending.value.offset != c.pending.value.seqNumber - c.snd.lastDataAckProcessed
  }

  /**
   Reading it now would do harm: the receiver still waits for its number, and the bytes found are
   not those the number stands for.
   */
  predicate Harmful(c: Sys) {
    && Stale(c) && c.rcv.lastSentAck <= c.pending.value.seqNumber && c.pending.value.seqNumber !in c.received
    && var own := c.pending.value.seqNumber - c.snd.lastDataAckProcessed;
    (own < |c.snd.buf.blocks| ==> c.snd.buf.blocks[c.pending.value.offset].data != c.snd.buf.blocks[own].data)
  }

  /** The one thing the stream depends on: no harmful retransmission is read and sent. */
  predicate Undisturbed(c: Sys, e: Event) {
    e.ReadResend? ==> !Harmful(c)
  }

  predicate AtSender(e: Event) {
    e.Send? || e.PickResend? || e.ReadResend? || e.FetchNew? || e.ToSender? || e.Obey? || e.Exp? || e.CloseSender?
  }

  /** The sender finishes a handler before the next, and resends before it sends anew. */
  predicate Sequential(c: Sys, e: Event) {
    && (AtSender(e) && c.pending.Some? ==> e.ReadResend?)
    && (AtSender(e) && c.pending.None? && c.obeying.Some? ==> e.Obey?)
    && (e.FetchNew? ==> c.snd.lossList == map[])
  }

  predicate Legal(c: Sys, es: seq<Event>)
    decreases |es|
  {
    es != [] ==> Enabled(c, es[0]) && Legal(Apply(c, es[0]), es[1..])
  }

  function Run(c: Sys, es: seq<Event>): Sys
    requires Legal(c, es)
    decreases |es|
  {
    if es == [] then c else Run(Apply(c, es[0]), es[1..])
  }

  predicate AllUndisturbed(c: Sys, es: seq<Event>)
    requires Legal(c, es)
    decreases |es|
  {
    es != [] ==> Undisturbed(c, es[0]) && AllUndisturbed(Apply(c, es[0]), es[1..])
  }

  predicate AllSequential(c: Sys, es: seq<Event>)
    requires Legal(c, es)
    decreases |es|
  {
    es != [] ==> Sequential(c, es[0]) && AllSequential(Apply(c, es[0]), es[1..])
  }

  /** Runs compose. */
  lemma {:induction false} RunAppend(c: Sys, es: seq<Event>, fs: seq<Event>)
    requires Legal(c, es) && Legal(Run(c, es), fs)
    requires AllSequential(c, es) && AllSequential(Run(c, es), fs)
    ensures Legal(c, es + fs) && Run(c, es + fs) == Run(Run(c, es), fs) && AllSequential(c, es + fs)
    decreases |es|
  {
    if es == [] {
      assert es + fs == fs;
    } else {
      assert (es + fs)[0] == es[0] && (es + fs)[1..] == es[1..] + fs;
      RunAppend(Apply(c, es[0]), es[1..], fs);
    }
  }

  /** `d` is reached from `c` by a run that sends no harmful retransmission. */
  ghost predicate Continues(c: Sys, d: Sys) {
    exists es :: Legal(c, es) && AllUndisturbed(c, es) && Run(c, es) == d
  }

  lemma ContinuesRun(c: Sys, es: seq<Event>)
    requires Legal(c, es) && AllUndisturbed(c, es)
    ensures Continues(c, Run(c, es))
  {
  }

  lemma {:induction false} UndisturbedAppend(c: Sys, es: seq<Event>, fs: seq<Event>)
    requires Legal(c, es) && Legal(Run(c, es), fs)
    requires AllUndisturbed(c, es) && AllUndisturbed(Run(c, es), fs)
    ensures Legal(c, es + fs) && Run(c, es + fs) == Run(Run(c, es), fs) && AllUndisturbed(c, es + fs)
    decreases |es|
  {
    hide Apply, Enabled, Undisturbed;
    if es == [] {
      assert es + fs == fs;
    } else {
      assert (es + fs)[0] == es[0] && (es + fs)[1..] == es[1..] + fs;
      UndisturbedAppend(Apply(c, es[0]), es[1..], fs);
    }
  }

  lemma ContinuesOn(c: Sys, d: Sys, f: Sys)
    requires Continues(c, d) && Continues(d, f)
    ensures Continues(c, f)
  {
    hide Apply, Enabled, Undisturbed;
    var es :| Legal(c, es) && AllUndisturbed(c, es) && Run(c, es) == d;
    var fs :| Legal(d, fs) && AllUndisturbed(d, fs) && Run(d, fs) == f;
    UndisturbedAppend(c, es, fs);
  }

  ghost predicate CanReach(c: Sys, d: Sys) {
    exists es :: Legal(c, es) && Run(c, es) == d
  }

  lemma ReachSelf(c: Sys)
    ensures CanReach(c, c)
  {
    assert Legal(c, []) && Run(c, []) == c;
  }

  lemma ReachStep(c: Sys, e: Event, d: Sys)
    requires Enabled(c, e) && CanReach(Apply(c, e), d)
    ensures CanReach(c, d)
  {
    hide Apply, Enabled;
    var es :| Legal(Apply(c, e), es) && Run(Apply(c, e), es) == d;
    var fs := [e] + es;
    assert fs[0] == e && fs[1..] == es;
    assert Legal(c, fs) && Run(c, fs) == d;
  }
}
