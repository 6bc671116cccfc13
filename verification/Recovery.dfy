/**
 The reliable half of the promise. A timeout schedules everything the receiver lacks; resending
 works the schedule off in order; and from every reachable state, whatever the network has lost,
 the two ends can still get every accepted byte across.
 */
module Recovery {
  import opened SeqNumber
  import opened OrderedKeys
  import opened Packets
  import opened LossListModel
  import opened Connection
  import opened Invariant
  import opened StreamSafety
  import S = SenderModel
  import R = ReceiverModel
  import RB = RcvBufferModel

  // ---------------------------------------------------------------- a sweep of resends

  function SweepEvents(n: nat): (es: seq<Event>)
    ensures |es| == 2 * n
  {
    if n == 0 then [] else [PickResend, ReadResend] + SweepEvents(n - 1)
  }

  /** The packets retransmitted along a run, in order. */
  function Resent(c: Sys, es: seq<Event>): seq<Packet>
    requires Legal(c, es)
    decreases |es|
  {
    if es == [] then []
    else
      var sent := if es[0].ReadResend? then S.ReadResend(c.snd, c.pending.value) else None;
      (if sent.Some? then [sent.value] else []) + Resent(Apply(c, es[0]), es[1..])
  }

  /** The sender is about to resend: alive, between handlers, no number wrapped. */
  ghost predicate Ready(c: Sys) {
    Inv(c) && c.pending.None? && c.obeying.None? && c.snd.status.IsAlive() && Top(c.snd) <= SEQ_MOD
  }

  /** The packet that number `x` stands for. */
  function PacketOf(isn: nat, history: seq<Block>, x: nat): Packet {
    if isn <= x < isn + |history| then AsPacket(history[x - isn], x) else Packet(x, [], 0, false, Only)
  }

  /** The state after the first scheduled number `x` has been sent again. */
  function Resending(c: Sys, x: nat): Sys {
    c.(snd := c.snd.(lossList := PopAfter(c.snd.lossList, c.snd.lastDataAckProcessed).1),
       net := c.net + {DataMsg(PacketOf(c.isn, c.history, x))})
  }

  /** One pick and one read send the first scheduled number and change nothing else. */
  lemma ResendOne(c: Sys)
    requires Ready(c) && c.snd.lossList != map[]
    ensures PeekAfter(c.snd.lossList, c.snd.lastDataAckProcessed).Some?
    ensures
      var x := PeekAfter(c.snd.lossList, c.snd.lastDataAckProcessed).value;
      && Enabled(Apply(c, PickResend), ReadResend)
      && Apply(Apply(c, PickResend), ReadResend) == Resending(c, x) && Ready(Resending(c, x))
      && S.ReadResend(Apply(c, PickResend).snd, Apply(c, PickResend).pending.value) == Some(PacketOf(c.isn, c.history, x))
      && c.snd.lastDataAckProcessed <= x < Top(c.snd)
  {
    PickIsFresh(c);
    hide Inv;
    PickScheduled(c);
    StepKeepsInv(c, PickResend);
    StepKeepsInv(Apply(c, PickResend), ReadResend);
  }

  lemma PickScheduled(c: Sys)
    requires Ready(c) && c.snd.lossList != map[]
    ensures PeekAfter(c.snd.lossList, c.snd.lastDataAckProcessed).Some? && S.PickResend(c.snd).0.Some?
    ensures
      var x := PeekAfter(c.snd.lossList, c.snd.lastDataAckProcessed).value;
      var (pick, s') := S.PickResend(c.snd);
      && S.ReadResend(s', pick.value) == Some(PacketOf(c.isn, c.history, x))
      && c.snd.lastDataAckProcessed <= x < Top(c.snd)
  {
    hide HistoryInv, PendingInv, ObeyInv, SplitInv, AckInv, StreamInv, WindowInv, CrossInv, NetInv, PeekAfter, Remove;
    PeekMeaning(c.snd.lossList, c.snd.lastDataAckProcessed);
    var x := PeekAfter(c.snd.lossList, c.snd.lastDataAckProcessed).value;
    assert Scheduled(c.isn, c.snd, x);
    PickHits(c.isn, c.history, c.snd);
    assert S.PickResend(c.snd).0.value.seqNumber == x;
    hide Inv, BufferInv, LossInv, S.ReadResend, S.PickResend;
  }

  function PacketsOf(isn: nat, history: seq<Block>, xs: seq<nat>): seq<Packet> {
    if xs == [] then [] else [PacketOf(isn, history, xs[0])] + PacketsOf(isn, history, xs[1..])
  }

  /** A round of resending in front of a run. */
  lemma RoundThen(c: Sys, x: nat, es: seq<Event>)
    requires Enabled(c, PickResend) && Enabled(Apply(c, PickResend), ReadResend) && c.pending.None? && c.obeying.None?
    requires Apply(Apply(c, PickResend), ReadResend) == Resending(c, x)
    requires S.ReadResend(Apply(c, PickResend).snd, Apply(c, PickResend).pending.value) == Some(PacketOf(c.isn, c.history, x))
    requires Legal(Resending(c, x), es) && AllSequential(Resending(c, x), es)
    ensures
      var fs := [PickResend, ReadResend] + es;
      && Legal(c, fs) && AllSequential(c, fs) && Run(c, fs) == Run(Resending(c, x), es)
      && Resent(c, fs) == [PacketOf(c.isn, c.history, x)] + Resent(Resending(c, x), es)
  {
    hide S.PickResend, S.ReadResend, Resending, PacketOf;
    var gs := [ReadResend] + es;
    var fs := [PickResend, ReadResend] + es;
    var d := Apply(c, PickResend);
    assert gs[0] == ReadResend && gs[1..] == es;
    assert fs[0] == PickResend && fs[1..] == gs;
    assert Legal(d, gs) && AllSequential(d, gs) && Run(d, gs) == Run(Resending(c, x), es);
    assert Resent(d, gs) == [PacketOf(c.isn, c.history, x)] + Resent(Resending(c, x), es);
    assert Resent(c, fs) == [] + Resent(d, gs);
  }

  /**
   With no ACK or NAK in between, resending sends each scheduled number exactly once, in the
   order the loss list is drained, and ends after as many rounds as the list has members.
   */
  lemma {:induction false} SweepDrains(c: Sys)
    requires Ready(c)
    ensures
      var es := SweepEvents(|Members(c.snd.lossList)|);
      && Legal(c, es) && AllSequential(c, es)
      && Resent(c, es) == PacketsOf(c.isn, c.history, Drain(c.snd.lossList, c.snd.lastDataAckProcessed))
      && Ready(Run(c, es)) && Run(c, es) == c.(snd := c.snd.(lossList := map[]), net := Run(c, es).net)
      && c.net <= Run(c, es).net
      && (forall x: nat :: x in Members(c.snd.lossList) ==> DataMsg(PacketOf(c.isn, c.history, x)) in Run(c, es).net)
    decreases |Members(c.snd.lossList)|
  {
    var m, after := c.snd.lossList, c.snd.lastDataAckProcessed;
    if m == map[] {
      assert Members(m) == {};
      PeekMeaning(m, after);
    } else {
      ResendOne(c);
      var x := PeekAfter(m, after).value;
      var d := Resending(c, x);
      PopShrinks(m, after);
      assert d.snd.lossList == PopAfter(m, after).1;
      assert |Members(d.snd.lossList)| == |Members(m)| - 1;
      SweepDrains(d);
      RoundThen(c, x, SweepEvents(|Members(m)| - 1));
      assert Drain(m, after) == [x] + Drain(d.snd.lossList, after);
      hide Inv, Members, PopAfter, PeekAfter, Drain, Legal, Run, AllSequential, Resent;
    }
  }

  /** The sweep goes upward through exactly the scheduled numbers. */
  lemma SweepIsAscending(c: Sys)
    requires Ready(c)
    ensures
      var order := Drain(c.snd.lossList, c.snd.lastDataAckProcessed);
      && |order| == |Members(c.snd.lossList)|
      && (forall x :: x in order <==> x in Members(c.snd.lossList))
      && (forall i, j :: 0 <= i < j < |order| ==> order[i] < order[j])
  {
    var m, after := c.snd.lossList, c.snd.lastDataAckProcessed;
    var order := Drain(m, after);
    DrainMeaning(m, after);
    forall i | 0 <= i < |order|
      ensures after <= order[i]
    {
      assert order[i] in order && order[i] in Members(m);
      assert Scheduled(c.isn, c.snd, order[i]);
    }
  }

  /** A timeout with nothing scheduled schedules every sent packet the receiver lacks. */
  lemma ExpCovers(c: Sys, x: nat)
    requires Inv(c) && Top(c.snd) <= SEQ_MOD && c.snd.lossList == map[]
    requires c.isn <= x < Top(c.snd) && x !in c.received
    ensures Has(S.OnExp(c.snd).lossList, x)
  {
    ReceivedWasSent(c.isn, c.received, c.snd, c.rcv, c.snd.lastAckReceived);
    ExpKeepsLoss(c.isn, c.snd);
    ExpFires(c, x);
    hide S.OnExp;
  }

  lemma ExpFires(c: Sys, x: nat)
    requires BufferInv(c.isn, c.history, c.snd) && CrossInv(c.isn, c.received, c.snd, c.rcv)
    requires Top(c.snd) <= SEQ_MOD && c.snd.lossList == map[]
    requires c.isn <= x < Top(c.snd) && x !in c.received && x <= SEQ_MAX
    ensures S.OnExp(c.snd) != c.snd && c.snd.lastAckReceived <= x
  {
    assert c.snd.lastAckReceived > x ==> x in c.received;
    assert c.snd.lastAckReceived != Add(c.snd.currSnd, 1);
    InsertMeaning(map[], c.snd.lastAckReceived, c.snd.currSnd);
    assert Has(Insert(map[], c.snd.lastAckReceived, c.snd.currSnd), x);
    assert !Has(map[], x);
  }

  // ---------------------------------------------------------------- room for the next packet

  /**
   The accepting side starts one number low: its first packet needs a free slot, which later
   packets leave as long as the first is missing.
   */
  ghost predicate RoomInv(c: Sys) {
    c.rcv.lastSentAck == c.isn - 1 && c.isn !in c.received ==> |c.rcv.buf.packets| < c.rcv.buf.maxSize
  }

  lemma DataKeepsRoom(c: Sys, p: Packet)
    requires GoodMsg(c, DataMsg(p)) && RoomInv(c)
    requires SplitInv(c.isn, c.received, c.rcv) && AckInv(c.isn, c.received, c.rcv)
    requires BufferInv(c.isn, c.history, c.snd) && CrossInv(c.isn, c.received, c.snd, c.rcv)
    ensures RoomInv(AfterData(c, p))
  {
    hide R.OnData, R.Admits, SplitInv, AckInv, BufferInv, CrossInv, Carries, Diff;
    if R.Admits(c.rcv, p.seqNumber) {
      AdmittedIsGood(c, p);
      DataShape(c.rcv, p);
      AdmittedOffset(c, p);
    } else {
      NotAdmitted(c.rcv, p);
    }
  }

  lemma AdmittedOffset(c: Sys, p: Packet)
    requires R.Admits(c.rcv, p.seqNumber) && c.isn <= p.seqNumber <= SEQ_MAX && p.seqNumber < Top(c.snd)
    requires BufferInv(c.isn, c.history, c.snd) && CrossInv(c.isn, c.received, c.snd, c.rcv)
    requires AckInv(c.isn, c.received, c.rcv)
    ensures c.rcv.lastSentAck == c.isn - 1 ==> p.seqNumber - c.rcv.lastSentAck <= RB.Available(c.rcv.buf)
  {
    if c.rcv.lastSentAck == c.isn - 1 {
      DiffSign(p.seqNumber, c.rcv.lastSentAck);
    }
  }

  lemma RoomKept(c: Sys, d: Sys)
    requires RoomInv(c) && d.isn == c.isn && d.received == c.received && c.rcv.lastSentAck <= d.rcv.lastSentAck
    requires c.isn - 1 <= c.rcv.lastSentAck
    requires d.rcv.buf.packets == c.rcv.buf.packets || d.rcv.lastSentAck != c.isn - 1
    requires d.rcv.buf.maxSize == c.rcv.buf.maxSize
    ensures RoomInv(d)
  {
  }

  lemma RecvShape(r: R.Rcv, room: nat)
    ensures
      var r' := R.Recv(r, room).1;
      && r'.lastSentAck == r.lastSentAck && r'.buf.maxSize == r.buf.maxSize
      && (r.buf.nextToRead == r.buf.nextToAck ==> r'.buf == r.buf)
  {
    if r.buf.nextToRead == r.buf.nextToAck {
      assert RB.Taken(r.buf, []) == r.buf;
    }
  }

  lemma StepKeepsRoom(c: Sys, e: Event)
    requires Inv(c) && RoomInv(c) && Enabled(c, e)
    ensures RoomInv(Apply(c, e))
  {
    hide S.PickResend, S.ReadResend, S.FetchNew, S.OnFullAck, S.OnNak, S.OnExp, S.Send, R.OnData, R.SendAck, R.Recv;
    hide HistoryInv, BufferInv, LossInv, PendingInv, SplitInv, StreamInv, WindowInv, CrossInv, RoomInv;
    if e.ToReceiver? && e.m.DataMsg? {
      assert GoodMsg(c, e.m);
      DataKeepsRoom(c, e.m.packet);
    } else {
      if e.SendAck? {
        SendAckParts(c, e.light, e.recent);
      } else if e.Recv? {
        RecvShape(c.rcv, e.room);
      }
      RoomKept(c, Apply(c, e));
    }
  }

  // ---------------------------------------------------------------- runs

  /** New packets go out only under window `w`, and the network loses nothing. */
  predicate Steady(w: int, e: Event) {
    (e.FetchNew? ==> e.window == w) && !e.Lose?
  }

  ghost predicate AllSteady(w: int, es: seq<Event>) {
    forall i :: 0 <= i < |es| ==> Steady(w, es[i])
  }

  /** `d` is reached from `c` by uninterrupted handlers and steady steps. */
  ghost predicate Leads(w: int, c: Sys, d: Sys) {
    exists es :: Legal(c, es) && AllSequential(c, es) && AllSteady(w, es) && Run(c, es) == d
  }

  lemma LeadsSame(w: int, c: Sys)
    ensures Leads(w, c, c)
  {
    assert Legal(c, []) && AllSequential(c, []) && AllSteady(w, []) && Run(c, []) == c;
  }

  lemma LeadsStep(w: int, c: Sys, e: Event)
    requires Enabled(c, e) && Sequential(c, e) && Steady(w, e)
    ensures Leads(w, c, Apply(c, e))
  {
    hide Apply, Enabled, Sequential;
    var d := Apply(c, e);
    var es := [e];
    assert es[0] == e && es[1..] == [];
    assert Legal(d, []) && AllSequential(d, []) && Run(d, []) == d;
    assert Legal(c, es);
    assert AllSequential(c, es);
    assert AllSteady(w, es);
    assert Run(c, es) == d;
  }

  lemma LeadsOn(w: int, c: Sys, d: Sys, f: Sys)
    requires Leads(w, c, d) && Leads(w, d, f)
    ensures Leads(w, c, f)
  {
    var es :| Legal(c, es) && AllSequential(c, es) && AllSteady(w, es) && Run(c, es) == d;
    var fs :| Legal(d, fs) && AllSequential(d, fs) && AllSteady(w, fs) && Run(d, fs) == f;
    RunAppend(c, es, fs);
    assert AllSteady(w, es + fs);
  }

  /** Two live sockets of a connection whose numbers will not run out. */
  ghost predicate Live(c: Sys) {
    && Inv(c) && RoomInv(c)
    && c.snd.status == S.Connected && c.rcv.status == S.Connected
    && c.isn + |c.history| <= SEQ_MAX
    && c.rcv.lastAck2 <= Released(c)
  }

  /** What recovery leaves alone: the messages to be delivered. */
  ghost predicate SameStream(c: Sys, d: Sys) {
    d.isn == c.isn && d.messages == c.messages && d.history == c.history
  }

  /** Steps other than accepting messages, closing and confirming. */
  predicate Recovers(e: Event) {
    || e.PickResend? || e.ReadResend? || e.FetchNew? || (e.Exp? && !e.giveUp) || e.SendAck? || e.Recv?
    || (e.ToReceiver? && e.m.DataMsg?) || (e.ToSender? && e.m.FullAck?) || e.Obey?
  }

  /** A live step that touches neither statuses nor messages. */
  lemma LiveStep(w: int, c: Sys, e: Event) returns (d: Sys)
    requires Live(c) && Enabled(c, e) && Sequential(c, e) && Undisturbed(c, e) && Steady(w, e)
    requires Recovers(e)
    ensures d == Apply(c, e) && Live(d) && Leads(w, c, d) && SameStream(c, d) && Grows(c, d)
  {
    d := Apply(c, e);
    hide Inv, RoomInv, Apply, Enabled, Sequential, Undisturbed, Grows, Released, Leads;
    StepKeepsInv(c, e);
    StepKeepsRoom(c, e);
    ReleasedGrows(c, e);
    LeadsStep(w, c, e);
    LiveShape(c, e);
  }

  lemma LiveShape(c: Sys, e: Event)
    requires Live(c) && Enabled(c, e) && Recovers(e)
    ensures
      var d := Apply(c, e);
      && SameStream(c, d) && d.snd.status == c.snd.status && d.rcv.status == c.rcv.status
      && d.rcv.lastAck2 == c.rcv.lastAck2
  {
    hide HistoryInv, BufferInv, LossInv, PendingInv, SplitInv, AckInv, StreamInv, CrossInv, NetInv, ObeyInv;
    hide S.PickResend, S.ReadResend, S.FetchNew, S.OnExp, S.OnFullAck, R.OnData, R.SendAck, R.Admits;
    TopIsBounded(c);
    match e
    case ToSender(m, confirm) =>
    case Obey => PeersNeverBreak(c, e);
    case ToReceiver(m) =>
      if R.Admits(c.rcv, m.packet.seqNumber) { DataShape(c.rcv, m.packet); } else { NotAdmitted(c.rcv, m.packet); }
    case SendAck(light, recent) => SendAckParts(c, light, recent);
    case _ => SenderShape(c.snd, e);
  }

  lemma TopIsBounded(c: Sys)
    requires BufferInv(c.isn, c.history, c.snd)
    ensures c.isn <= Top(c.snd) <= c.isn + |c.history|
  {
  }

  lemma SenderShape(s: S.Snd, e: Event)
    ensures S.PickResend(s).1.status == s.status && S.OnExp(s).status == s.status
    ensures e.FetchNew? && 0 <= s.buf.position <= |s.buf.blocks| ==> S.FetchNew(s, e.window).1.status == s.status
  {
  }
}
