/**
 The converse of stream safety: a harmful read is not only outside the proof, it can reach the
 application. From every live state about to make one there is a continuation, with the sender's
 handlers uninterrupted and nothing lost, that hands the application wrong bytes.
 */
module Corruption {
  import opened SeqNumber
  import opened OrderedKeys
  import opened Packets
  import opened LossListModel
  import opened Connection
  import opened Invariant
  import opened StreamSafety
  import opened Recovery
  import opened Rounds
  import opened Reliability
  import S = SenderModel
  import R = ReceiverModel
  import SB = SndBufferModel
  import RB = RcvBufferModel

  // ---------------------------------------------------------------- up to the number

  lemma LeadsGrows(w: int, c: Sys, d: Sys)
    requires Inv(c) && !Harmful(c) && Leads(w, c, d)
    ensures Grows(c, d)
  {
    hide Inv, Harmful, Grows;
    var es :| Legal(c, es) && AllSequential(c, es) && AllSteady(w, es) && Run(c, es) == d;
    SequentialIsUndisturbed(c, es);
    RunKeepsInv(c, es);
  }

  /** Everything below the first missing number has been read. */
  ghost predicate ReadUp(c: Sys) {
    Quiet(c) && c.rcv.buf.nextToRead == R.NextMissing(c.rcv)
  }

  /** The rounds stop in front of any number that is not received. */
  lemma {:induction false} ReachNumber(w: int, c: Sys, x: nat) returns (d: Sys)
    requires ReadUp(c) && w >= 0 && x !in c.received && R.NextMissing(c.rcv) <= x < c.isn + |c.history|
    ensures ReadUp(d) && Leads(w, c, d) && SameStream(c, d) && R.NextMissing(d.rcv) == x && x !in d.received
    decreases x - R.NextMissing(c.rcv)
  {
    hide Inv, RoomInv, R.NextMissing, Leads, Round, Released;
    if R.NextMissing(c.rcv) == x {
      LeadsSame(w, c);
      d := c;
    } else {
      var c1 := Round(w, c);
      RoundGains(w, c);
      NextIsFirst(c);
      NextIsFirst(c1);
      d := ReachNumber(w, c1, x);
      LeadsOn(w, c, c1, d);
    }
  }

  lemma Approach(w: int, c: Sys, x: nat) returns (d: Sys)
    requires Live(c) && !Harmful(c) && w >= 0 && c.isn <= x < c.isn + |c.history| && x !in c.received
    ensures ReadUp(d) && Acknowledged(d) && Leads(w, c, d) && SameStream(c, d)
    ensures R.NextMissing(d.rcv) == x && x !in d.received
  {
    hide Inv, RoomInv, R.NextMissing, Leads, Settled, ReadOut, Released, R.SendAck, Acknowledged;
    var c1 := Settled(c);
    SettledIsQuiet(w, c);
    var c2 := ReadOut(c1);
    ReadOutReads(w, c1);
    NextIsFirst(c2);
    var c3 := ReachNumber(w, c2, x);
    d := AckStep(w, c3);
    LeadsOn(w, c, c1, c2);
    LeadsOn(w, c, c2, c3);
    LeadsOn(w, c, c3, d);
  }

  // ---------------------------------------------------------------- the wrong packet in place of the right one

  /** The receiver with packet `p` in place of the one buffered under its number. */
  function Swap(r: R.Rcv, p: Packet): R.Rcv {
    r.(buf := r.buf.(packets := r.buf.packets[p.seqNumber := p]))
  }

  lemma SwapData(r: R.Rcv, g: Packet, p: Packet)
    requires g.seqNumber == p.seqNumber && R.Admits(r, p.seqNumber) && p.seqNumber !in r.buf.packets
    ensures R.OnData(r, p) == (Swap(R.OnData(r, g).0, p), R.OnData(r, g).1)
  {
    hide R.Admits;
    DataShape(r, p);
    DataShape(r, g);
    assert R.OnData(r, p).0.lossList == R.OnData(r, g).0.lossList;
    assert RB.Insert(r.buf, p).packets == RB.Insert(r.buf, g).packets[p.seqNumber := p];
    hide Diff, Insert, Remove;
  }

  lemma SwapAck(r: R.Rcv, p: Packet)
    requires r.window.size > 0
    ensures
      var (r', message) := R.SendAck(r, false, false);
      R.SendAck(Swap(r, p), false, false) == (Swap(r', p), message)
  {
    assert R.NextMissing(Swap(r, p)) == R.NextMissing(r);
    hide R.NextMissing, Diff;
  }

  /** The state after a packet is taken in and acknowledged. */
  function Taking(c: Sys, p: Packet): Sys
    requires c.rcv.window.size > 0
  {
    WindowKept(c.rcv, p);
    AfterSendAck(AfterData(c, p), false, false)
  }

  /** And after everything acknowledged has been read. */
  ghost function TakingRead(c: Sys, p: Packet): Sys
    requires c.rcv.window.size > 0
  {
    var d := Taking(c, p);
    AfterRecv(d, Enough(d.rcv.buf))
  }

  lemma WindowKept(r: R.Rcv, p: Packet)
    ensures R.OnData(r, p).0.window == r.window && R.OnData(r, p).0.status == r.status
  {
  }

  /** The wrong packet leads where the right one does, but for what is buffered under the number. */
  lemma SwapTaking(c: Sys, g: Packet, p: Packet)
    requires c.rcv.window.size > 0
    requires g.seqNumber == p.seqNumber && R.Admits(c.rcv, p.seqNumber) && p.seqNumber !in c.rcv.buf.packets
    ensures Taking(c, p) == Taking(c, g).(rcv := Swap(Taking(c, g).rcv, p))
  {
    hide R.Admits, R.OnData, R.SendAck;
    WindowKept(c.rcv, g);
    SwapData(c.rcv, g, p);
    SwapAck(R.OnData(c.rcv, g).0, p);
  }

  lemma {:induction false} PayloadSkips(packets: map<nat, Packet>, keys: seq<nat>, p: Packet)
    requires p.seqNumber !in keys
    ensures RB.Payload(packets[p.seqNumber := p], keys) == RB.Payload(packets, keys)
  {
    if keys != [] {
      assert keys[0] in keys;
      assert forall k :: k in keys[1..] ==> k in keys;
      PayloadSkips(packets, keys[1..], p);
    }
  }

  /** The keys above the first that a read takes. */
  function Later(b: RB.RcvBuf): seq<nat> {
    KeysIn(b.packets.Keys, b.nextToRead + 1, b.nextToAck)
  }

  /** A read with enough room takes the first packet and everything acknowledged above it. */
  lemma RecvEnough(r: R.Rcv)
    requires r.status == S.Connected && r.buf.nextToRead < r.buf.nextToAck <= SEQ_MAX
    requires r.buf.nextToRead in r.buf.packets
    ensures r.buf.nextToRead !in Later(r.buf)
    ensures
      var x := r.buf.nextToRead;
      var keys := [x] + Later(r.buf);
      R.Recv(r, Enough(r.buf)) ==
      (R.Delivered(r.buf.packets[x].data + RB.Payload(r.buf.packets, Later(r.buf))), r.(buf := RB.Taken(r.buf, keys)))
  {
    var b := r.buf;
    var keys := [b.nextToRead] + Later(b);
    assert RB.Readable(b) == keys;
    KeysInMeaning(b.packets.Keys, b.nextToRead, b.nextToAck);
    KeysInMeaning(b.packets.Keys, b.nextToRead + 1, b.nextToAck);
    assert forall i :: 0 <= i < |keys| ==> keys[i] in keys;
    assert RB.HasDataToRead(b);
    hide KeysIn;
    FitsAll(b.packets, keys, Enough(b));
    assert keys[..|keys|] == keys && keys[1..] == Later(b);
    assert RB.Payload(b.packets, keys) == b.packets[b.nextToRead].data + RB.Payload(b.packets, keys[1..]);
    hide RB.FitCount, RB.Payload, RB.Taken, Later;
  }

  /** The reads differ in the bytes of that one packet, and leave the receiver the same. */
  lemma SwapRecv(r: R.Rcv, p: Packet)
    requires r.status == S.Connected && r.buf.nextToRead == p.seqNumber < r.buf.nextToAck <= SEQ_MAX
    requires p.seqNumber in r.buf.packets
    ensures
      var bad := Swap(r, p);
      var more := RB.Payload(r.buf.packets, Later(r.buf));
      && R.Recv(r, Enough(r.buf)).0 == R.Delivered(r.buf.packets[p.seqNumber].data + more)
      && R.Recv(bad, Enough(bad.buf)) == (R.Delivered(p.data + more), R.Recv(r, Enough(r.buf)).1)
  {
    hide R.Recv, Enough, RB.Payload, KeysIn;
    var bad := Swap(r, p);
    RecvEnough(r);
    assert bad.buf.packets.Keys == r.buf.packets.Keys;
    assert Later(bad.buf) == Later(r.buf);
    RecvEnough(bad);
    PayloadSkips(r.buf.packets, Later(r.buf), p);
    var keys := [p.seqNumber] + Later(r.buf);
    assert RB.Taken(bad.buf, keys).packets == RB.Taken(r.buf, keys).packets;
  }

  /** Once the packet is read, the two states differ in nothing but the bytes delivered. */
  lemma SwapRead(c: Sys, g: Packet, p: Packet) returns (more: seq<Byte>)
    requires c.rcv.window.size > 0
    requires g.seqNumber == p.seqNumber && R.Admits(c.rcv, p.seqNumber) && p.seqNumber !in c.rcv.buf.packets
    requires
      var r := Taking(c, g).rcv;
      && r.status == S.Connected && r.buf.nextToRead == p.seqNumber < r.buf.nextToAck <= SEQ_MAX
      && p.seqNumber in r.buf.packets && r.buf.packets[p.seqNumber] == g
    ensures TakingRead(c, g).delivered == c.delivered + g.data + more
    ensures TakingRead(c, p) == TakingRead(c, g).(delivered := c.delivered + p.data + more)
  {
    hide Taking, R.Recv, Enough, R.Admits, RB.Payload, Later, Swap;
    var good := Taking(c, g);
    TakingDelivers(c, g);
    SwapTaking(c, g, p);
    SwapRecv(good.rcv, p);
    more := RB.Payload(good.rcv.buf.packets, Later(good.rcv.buf));
    assert c.delivered + (g.data + more) == c.delivered + g.data + more;
    assert c.delivered + (p.data + more) == c.delivered + p.data + more;
  }

  lemma TakingDelivers(c: Sys, g: Packet)
    requires c.rcv.window.size > 0
    ensures Taking(c, g).delivered == c.delivered
  {
    hide R.OnData, R.SendAck, R.Admits;
  }

  // ---------------------------------------------------------------- the corrupting run

  lemma LessNet(c: Sys, m: Msg)
    requires Quiet(Plus(c, m))
    ensures Quiet(c)
  {
    hide HistoryInv, BufferInv, LossInv, PendingInv, SplitInv, AckInv, StreamInv, WindowInv, CrossInv, ObeyInv;
    NetKept(Plus(c, m), c);
  }

  lemma InsertedIs(r: R.Rcv, g: Packet)
    requires R.Admits(r, g.seqNumber) && g.seqNumber !in r.buf.packets
    ensures
      var b := R.OnData(r, g).0.buf;
      g.seqNumber in b.packets && b.packets[g.seqNumber] == g && b.nextToRead == r.buf.nextToRead
  {
    hide R.Admits, R.OnData, Diff;
    DataShape(r, g);
  }

  /** A packet the receiver waits for. */
  ghost predicate Awaited(c: Sys, p: Packet) {
    && ReadUp(c) && Acknowledged(c) && R.NextMissing(c.rcv) == p.seqNumber < Top(c.snd)
    && p.seqNumber !in c.received
  }

  lemma RightArrives(w: int, c: Sys, g: Packet)
    requires Awaited(c, g) && g == PacketOf(c.isn, c.history, g.seqNumber)
    ensures
      var d := AfterData(c, g);
      Quiet(Plus(d, DataMsg(g))) && SameStream(c, d) && d.snd == c.snd && g.seqNumber in d.received && c.received <= d.received
  {
    hide Inv, RoomInv, R.NextMissing, R.Admits, Leads, Released, R.OnData, Grows;
    TopBelow(c);
    NextIsFirst(c);
    var m := DataMsg(g);
    AddGood(c, m);
    var d := LiveStep(w, Plus(c, m), ToReceiver(m));
    assert d == Plus(AfterData(c, g), m);
  }

  /** The right packet is taken in and acknowledged. */
  lemma RightTaken(w: int, c: Sys, g: Packet)
    requires Awaited(c, g) && g == PacketOf(c.isn, c.history, g.seqNumber)
    ensures c.rcv.window.size > 0
    ensures Quiet(Plus(Taking(c, g), DataMsg(g))) && SameStream(c, Taking(c, g)) && Taking(c, g).snd == c.snd
    ensures g.seqNumber < Taking(c, g).rcv.buf.nextToAck <= SEQ_MAX
    ensures Taking(c, g).rcv.buf == AfterData(c, g).rcv.buf.(nextToAck := Taking(c, g).rcv.buf.nextToAck)
  {
    hide Inv, RoomInv, R.NextMissing, R.Admits, Leads, Grows, Released, R.OnData, R.SendAck, AfterData, PacketOf;
    HasWindow(c);
    RightArrives(w, c, g);
    var c1, m := AfterData(c, g), DataMsg(g);
    var d := AckStep(w, Plus(c1, m));
    PlusStep(c1, SendAck(false, false), m);
    assert d == Plus(Taking(c, g), m);
    NextIsFirst(c);
    NextIsFirst(Plus(c1, m));
  }

  /** The state the right packet leads to: acknowledged past it, and then read. */
  lemma RightPacket(w: int, c: Sys, g: Packet)
    requires Awaited(c, g) && g == PacketOf(c.isn, c.history, g.seqNumber)
    ensures c.rcv.window.size > 0 && g.seqNumber !in c.rcv.buf.packets
    ensures
      var r := Taking(c, g).rcv;
      && r.status == S.Connected && r.buf.nextToRead == g.seqNumber < r.buf.nextToAck <= SEQ_MAX
      && g.seqNumber in r.buf.packets && r.buf.packets[g.seqNumber] == g
    ensures Quiet(TakingRead(c, g)) && SameStream(c, TakingRead(c, g)) && TakingRead(c, g).snd == c.snd
  {
    hide Inv, RoomInv, R.NextMissing, R.Admits, Leads, Released, R.OnData, Taking, R.Recv, Enough;
    RightTaken(w, c, g);
    NotBuffered(c, g.seqNumber);
    InsertedIs(c.rcv, g);
    assert AfterData(c, g).rcv.buf == R.OnData(c.rcv, g).0.buf;
    RightRead(w, Taking(c, g), DataMsg(g));
  }

  lemma RightRead(w: int, c: Sys, m: Msg)
    requires Quiet(Plus(c, m))
    ensures
      var d := AfterRecv(c, Enough(c.rcv.buf));
      Quiet(d) && SameStream(c, d) && d.snd == c.snd
  {
    hide Inv, RoomInv, Leads, Released, R.Recv, Enough;
    var e := Recv(Enough(c.rcv.buf));
    var d := LiveStep(w, Plus(c, m), e);
    PlusStep(c, e, m);
    LessNet(Apply(c, e), m);
  }

  lemma HasWindow(c: Sys)
    requires Live(c)
    ensures c.rcv.window.size > 0
  {
  }

  lemma AddGood(c: Sys, m: Msg)
    requires Live(c) && GoodMsg(c, m)
    ensures Live(Plus(c, m))
  {
    hide HistoryInv, BufferInv, LossInv, PendingInv, SplitInv, AckInv, StreamInv, WindowInv, CrossInv, ObeyInv;
    NetKept(c, Plus(c, m));
  }

  lemma NotBuffered(c: Sys, x: nat)
    requires Live(c) && x !in c.received
    ensures x !in c.rcv.buf.packets
  {
  }

  lemma WrongSteps(w: int, c: Sys, p: Packet)
    requires c.rcv.window.size > 0 && c.rcv.status.IsAlive() && R.Admits(c.rcv, p.seqNumber)
    requires Taking(c, p).rcv.status.IsAlive()
    ensures Leads(w, Plus(c, DataMsg(p)), Plus(TakingRead(c, p), DataMsg(p)))
  {
    hide R.Admits, R.OnData, R.SendAck, R.Recv, Enough, Leads;
    WindowKept(c.rcv, p);
    var m := DataMsg(p);
    var c1, c2, c3 := Plus(c, m), AfterData(c, p), Taking(c, p);
    var e := Recv(Enough(c3.rcv.buf));
    assert Apply(c1, ToReceiver(m)) == Plus(c2, m);
    LeadsStep(w, c1, ToReceiver(m));
    PlusStep(c2, SendAck(false, false), m);
    LeadsStep(w, Plus(c2, m), SendAck(false, false));
    PlusStep(c3, e, m);
    LeadsStep(w, Plus(c3, m), e);
    hide Plus, Taking, Apply;
    LeadsOn(w, c1, Plus(c2, m), Plus(c3, m));
    LeadsOn(w, c1, Plus(c3, m), Plus(Apply(c3, e), m));
  }

  /** What the wrong packet leads to is a live state with other bytes delivered, and the packet in flight. */
  lemma WrongPacket(w: int, c: Sys, p: Packet) returns (good: Sys, more: seq<Byte>)
    requires Awaited(c, p)
    ensures Quiet(good) && SameStream(c, good) && good.snd == c.snd && c.isn <= p.seqNumber < c.isn + |c.history|
    ensures good.delivered == c.delivered + c.history[p.seqNumber - c.isn].data + more
    ensures
      var bad := good.(delivered := c.delivered + p.data + more);
      Leads(w, Plus(c, DataMsg(p)), Plus(bad, DataMsg(p)))
  {
    hide Inv, RoomInv, R.NextMissing, R.Admits, Leads, Released, Taking, TakingRead;
    TopBelow(c);
    NextIsFirst(c);
    var g := PacketOf(c.isn, c.history, p.seqNumber);
    RightPacket(w, c, g);
    SwapTaking(c, g, p);
    more := SwapRead(c, g, p);
    good := TakingRead(c, g);
    WrongSteps(w, c, p);
  }

  // ---------------------------------------------------------------- what is delivered influences nothing

  /** The bytes a step hands to the application. */
  function Gained(c: Sys, e: Event): seq<Byte> {
    if e.Recv? && R.Recv(c.rcv, e.room).0.Delivered? then R.Recv(c.rcv, e.room).0.data else []
  }

  lemma ReadStep(c: Sys, e: Event, q: seq<Byte>)
    requires Enabled(c, e)
    ensures Apply(c, e).delivered == c.delivered + Gained(c, e) && Enabled(c.(delivered := q), e)
    ensures Apply(c.(delivered := q), e) == Apply(c, e).(delivered := q + Gained(c, e))
  {
    hide S.PickResend, S.ReadResend, S.FetchNew, S.OnFullAck, S.OnNak, S.OnExp, S.Send, S.OnLightAck;
    hide R.OnData, R.SendAck, R.Recv, R.Admits, R.OnAck2, SB.Segment;
    assert q + [] == q && c.delivered + [] == c.delivered;
  }

  /** The run reads `read`, and does so after any other bytes `q` just the same. */
  ghost predicate Rereads(c: Sys, es: seq<Event>, q: seq<Byte>, read: seq<Byte>)
    requires Legal(c, es)
  {
    && Run(c, es).delivered == c.delivered + read
    && Legal(c.(delivered := q), es) && AllSequential(c.(delivered := q), es)
    && Run(c.(delivered := q), es) == Run(c, es).(delivered := q + read)
  }

  lemma {:induction false} ReadRun(c: Sys, es: seq<Event>, q: seq<Byte>) returns (read: seq<Byte>)
    requires Legal(c, es) && AllSequential(c, es)
    ensures Rereads(c, es, q, read)
    decreases |es|
  {
    hide Apply, Enabled, Gained;
    if es == [] {
      read := [];
      assert q + [] == q && c.delivered + [] == c.delivered;
    } else {
      var gained := Gained(c, es[0]);
      ReadStep(c, es[0], q);
      hide Rereads;
      var later := ReadRun(Apply(c, es[0]), es[1..], q + gained);
      read := gained + later;
      RereadsStep(c, es, q, gained, later);
    }
  }

  lemma RereadsStep(c: Sys, es: seq<Event>, q: seq<Byte>, gained: seq<Byte>, later: seq<Byte>)
    requires es != [] && Enabled(c, es[0]) && Sequential(c, es[0]) && Enabled(c.(delivered := q), es[0])
    requires Apply(c, es[0]).delivered == c.delivered + gained
    requires Apply(c.(delivered := q), es[0]) == Apply(c, es[0]).(delivered := q + gained)
    requires Legal(Apply(c, es[0]), es[1..]) && Rereads(Apply(c, es[0]), es[1..], q + gained, later)
    ensures Legal(c, es) && Rereads(c, es, q, gained + later)
  {
    hide Apply, Enabled;
    assert q + gained + later == q + (gained + later);
    assert c.delivered + gained + later == c.delivered + (gained + later);
  }

  lemma LeadsRead(w: int, c: Sys, d: Sys, q: seq<Byte>) returns (read: seq<Byte>)
    requires Leads(w, c, d)
    ensures d.delivered == c.delivered + read && Leads(w, c.(delivered := q), d.(delivered := q + read))
  {
    var es :| Legal(c, es) && AllSequential(c, es) && AllSteady(w, es) && Run(c, es) == d;
    read := ReadRun(c, es, q);
    hide AllSteady, AllSequential, Legal, Run;
  }

  // ---------------------------------------------------------------- one more byte

  lemma SenderKeepsMax(s: S.Snd, e: Event, next: nat)
    ensures S.PickResend(s).1.buf == S.OnExp(s).buf == S.OnLightAck(s, next).buf == s.buf
    ensures S.OnFullAck(s, next).buf.maxSize == s.buf.maxSize
    ensures e.FetchNew? && 0 <= s.buf.position <= |s.buf.blocks| ==> S.FetchNew(s, e.window).1.buf.maxSize == s.buf.maxSize
    ensures e.Send? && s.buf.payloadSize > 0 ==> S.Send(s, e.data).1.buf.maxSize == s.buf.maxSize
  {
    hide Diff, SB.Segment, Insert, RemoveAll, PopAfter;
  }

  lemma {:induction false} NakKeepsBuf(s: S.Snd, info: seq<nat>)
    ensures S.OnNak(s, info).buf == s.buf && S.NakLoop(s, info).1.buf == s.buf
    decreases |info|
  {
    if info != [] && S.FrontRange(info).Some? {
      var (first, last, n) := S.FrontRange(info).value;
      NakKeepsBuf(S.RecordLoss(s, first, last), info[n..]);
      hide Diff, Insert, S.FrontRange;
    }
  }

  lemma StepKeepsMax(c: Sys, e: Event)
    requires Enabled(c, e)
    ensures Apply(c, e).snd.buf.maxSize == c.snd.buf.maxSize
  {
    hide S.PickResend, S.ReadResend, S.FetchNew, S.OnFullAck, S.OnNak, S.OnExp, S.Send, S.OnLightAck;
    hide R.OnData, R.SendAck, R.Recv, R.Admits, R.OnAck2, SB.Segment;
    match e
    case ToSender(m, _) =>
      if m.LightAck? { SenderKeepsMax(c.snd, e, m.next); } else if m.Nak? { NakKeepsBuf(c.snd, m.info); }
    case Obey => SenderKeepsMax(c.snd, e, c.obeying.value);
    case _ => SenderKeepsMax(c.snd, e, 0);
  }

  lemma {:induction false} RunKeepsMax(c: Sys, es: seq<Event>)
    requires Legal(c, es)
    ensures Run(c, es).snd.buf.maxSize == c.snd.buf.maxSize
    decreases |es|
  {
    if es != [] {
      hide Apply, Enabled;
      StepKeepsMax(c, es[0]);
      RunKeepsMax(Apply(c, es[0]), es[1..]);
    }
  }

  lemma LeadsKeepsMax(w: int, c: Sys, d: Sys)
    requires Leads(w, c, d)
    ensures d.snd.buf.maxSize == c.snd.buf.maxSize
  {
    var es :| Legal(c, es) && AllSequential(c, es) && AllSteady(w, es) && Run(c, es) == d;
    RunKeepsMax(c, es);
  }

  /** With everything received and released the send buffer is empty. */
  lemma NothingLeft(c: Sys)
    requires Obeyed(c) && R.NextMissing(c.rcv) == c.isn + |c.history|
    ensures c.snd.buf.blocks == []
  {
    hide R.NextMissing, HistoryInv, LossInv, PendingInv, SplitInv, AckInv, StreamInv, WindowInv, CrossInv, NetInv;
  }

  lemma OneBlock(b: Byte, size: nat, msgNumber: nat)
    requires size > 0
    ensures |SB.Segment([b], size, msgNumber, false)| == 1
  {
    var data := [b];
    assert data[..if size < 1 then size else 1] == data && data[1..] == [];
  }

  lemma AcceptByte(c: Sys, b: Byte)
    requires Live(c) && c.snd.buf.blocks == [] && c.snd.buf.maxSize >= 1
    ensures
      var d := AfterSend(c, [b]);
      && d.messages == c.messages + [[b]] && |d.history| == |c.history| + 1
      && d == c.(snd := c.snd.(buf := d.snd.buf), messages := d.messages, history := d.history)
  {
    OneBlock(b, c.snd.buf.payloadSize, c.snd.buf.nextMsg);
    hide SB.Segment;
  }

  lemma AcceptLive(w: int, c: Sys, b: Byte) returns (d: Sys)
    requires Quiet(c) && c.snd.buf.blocks == [] && c.snd.buf.maxSize >= 1 && c.isn + |c.history| < SEQ_MAX
    ensures Quiet(d) && Leads(w, c, d) && d.messages == c.messages + [[b]]
  {
    AcceptByte(c, b);
    var e := Send([b]);
    CanSend(c);
    hide Inv, RoomInv, Leads, AfterSend, Grows;
    d := Apply(c, e);
    StepKeepsInv(c, e);
    StepKeepsRoom(c, e);
    ReleasedGrows(c, e);
    LeadsStep(w, c, e);
    assert RoomInv(d);
  }

  lemma CanSend(c: Sys)
    requires Live(c)
    ensures c.snd.buf.payloadSize > 0
  {
  }

  /** From every quiet state with a number to spare one more byte can be accepted and delivered. */
  lemma OneMoreByte(w: int, c: Sys, b: Byte) returns (d: Sys)
    requires Quiet(c) && w >= 0 && c.snd.buf.maxSize >= 1 && c.isn + |c.history| < SEQ_MAX
    ensures Leads(w, c, d) && d.messages == c.messages + [[b]] && d.delivered == Flatten(d.messages)
  {
    hide Inv, RoomInv, R.NextMissing, Leads, Released, Flatten, Acknowledged, Round;
    var n := Outstanding(c);
    RoundsComplete(w, c, n);
    var c1 := Repeated(w, c, n);
    hide Repeated;
    FirstHalf(w, c1);
    var c2 := Acked(Swept(Settled(c1)));
    hide Acked, Swept, Settled;
    NothingLeft(c2);
    LeadsOn(w, c, c1, c2);
    LeadsKeepsMax(w, c, c2);
    var c3 := AcceptLive(w, c2, b);
    RoundsComplete(w, c3, Outstanding(c3));
    d := Repeated(w, c3, Outstanding(c3));
    LeadsOn(w, c, c2, c3);
    LeadsOn(w, c, c3, d);
  }

  // ---------------------------------------------------------------- every harmful read can corrupt

  lemma DeliveredSplits(c: Sys)
    requires HistoryInv(c.messages, c.history, c.snd.buf)
    requires StreamInv(c.isn, c.history, c.received, c.rcv.buf, c.delivered)
    ensures Flatten(c.messages) == c.delivered + Bytes(c.history[c.rcv.buf.nextToRead - c.isn..])
  {
    hide SB.SegmentAll, SB.Reassemble, Bytes, Flatten;
    var n := c.rcv.buf.nextToRead - c.isn;
    SB.ReassembleAll(c.messages, c.snd.buf.payloadSize, 0);
    BytesAppend(c.history[..n], c.history[n..]);
    assert c.history == c.history[..n] + c.history[n..];
  }

  lemma HarmShape(c: Sys)
    requires Live(c) && Harmful(c)
    ensures
      var Resend(x, offset) := c.pending.value;
      && S.ReadResend(c.snd, c.pending.value) == Some(AsPacket(c.snd.buf.blocks[offset], x))
      && x !in c.received && c.isn <= x < Top(c.snd) <= c.isn + |c.history|
      && c.snd.buf.blocks[offset].data != c.history[x - c.isn].data
      && c.snd.buf.maxSize >= 1
  {
    TopIsBounded(c);
  }

  /** The bytes a harmful read finds, those it should find, and those that come after. */
  function Found(c: Sys): seq<Byte>
    requires Stale(c)
  {
    c.snd.buf.blocks[c.pending.value.offset].data
  }

  ghost function Own(c: Sys): seq<Byte> {
    if c.pending.Some? && c.isn <= c.pending.value.seqNumber < c.isn + |c.history|
    then c.history[c.pending.value.seqNumber - c.isn].data else []
  }

  ghost function Rest(c: Sys): seq<Byte> {
    if c.pending.Some? && c.isn <= c.pending.value.seqNumber < c.isn + |c.history|
    then Bytes(c.history[c.pending.value.seqNumber - c.isn + 1..]) else []
  }

  lemma StreamAt(c: Sys, x: nat)
    requires ReadUp(c) && R.NextMissing(c.rcv) == x < c.isn + |c.history|
    ensures c.isn <= x && Flatten(c.messages) == c.delivered + c.history[x - c.isn].data + Bytes(c.history[x - c.isn + 1..])
  {
    hide R.NextMissing, RoomInv, Released, LossInv, PendingInv, ObeyInv, SplitInv, WindowInv, CrossInv, NetInv, BufferInv;
    DeliveredSplits(c);
    var later := c.history[x - c.isn..];
    assert later[1..] == c.history[x - c.isn + 1..];
    assert Bytes(later) == later[0].data + Bytes(later[1..]);
    hide Inv, Bytes, Flatten;
    assert c.delivered + (later[0].data + Bytes(later[1..])) == c.delivered + later[0].data + Bytes(later[1..]);
  }

  /**
   A read leads to a live state in which everything is as it should be except the bytes
   delivered: what was found stands in place of what should have been.
   */
  lemma HarmDelivers(w: int, c: Sys) returns (good: Sys, m: Msg, front: seq<Byte>, more: seq<Byte>)
    requires Live(c) && Harmful(c) && w >= 0
    ensures Quiet(good) && SameStream(c, good) && good.snd.buf.maxSize >= 1
    ensures good.delivered == front + Own(c) + more && Flatten(c.messages) == front + Own(c) + Rest(c)
    ensures Leads(w, c, Plus(good.(delivered := front + Found(c) + more), m))
  {
    hide Inv, RoomInv, R.NextMissing, Leads, Released, S.ReadResend, Acknowledged;
    HarmShape(c);
    m := ReadHarm(w, c);
    var quiet := c.(pending := None);
    var c1 := Approach(w, quiet, c.pending.value.seqNumber);
    LeadsGrows(w, quiet, c1);
    LeadsKeepsMax(w, quiet, c1);
    PlusLeads(w, quiet, c1, m);
    StreamAt(c1, c.pending.value.seqNumber);
    front := c1.delivered;
    good, more := WrongPacket(w, c1, m.packet);
    LeadsOn(w, c, Plus(quiet, m), Plus(c1, m));
    LeadsOn(w, c, Plus(c1, m), Plus(good.(delivered := front + Found(c) + more), m));
  }

  /** The same further on: the state `d` that the right bytes lead to is reached with the wrong ones. */
  lemma HarmGoesOn(w: int, c: Sys, good: Sys, d: Sys, m: Msg, bad: seq<Byte>) returns (read: seq<Byte>)
    requires Leads(w, c, Plus(good.(delivered := bad), m)) && Leads(w, good, d)
    ensures d.delivered == good.delivered + read && Leads(w, c, Plus(d.(delivered := bad + read), m))
  {
    hide Leads;
    read := LeadsRead(w, good, d, bad);
    PlusLeads(w, good.(delivered := bad), d.(delivered := bad + read), m);
    LeadsOn(w, c, Plus(good.(delivered := bad), m), Plus(d.(delivered := bad + read), m));
  }

  /** A piece of a text replaced by another that is at least as long never leaves a prefix of it. */
  lemma ReplacedIsNoPrefix(found: seq<Byte>, own: seq<Byte>, rest: seq<Byte>)
    requires found != own && |found| >= |own|
    ensures !(found + rest <= own + rest)
  {
    if |found| == |own| {
      assert (found + rest)[..|own|] == found && (own + rest)[..|own|] == own;
    }
  }

  lemma PrefixCancels(front: seq<Byte>, a: seq<Byte>, b: seq<Byte>)
    requires front + a <= front + b
    ensures a <= b
  {
    assert a == (front + a)[|front|..] && b == (front + b)[|front|..];
    forall i | 0 <= i < |a|
      ensures a[i] == b[i]
    {
      assert a[i] == (front + a)[|front| + i] == (front + b)[|front| + i];
    }
  }

  /** A shorter piece leaves none either, once the text ends in a byte it does not have that far before its end. */
  lemma ShortenedIsNoPrefix(front: seq<Byte>, found: seq<Byte>, own: seq<Byte>, rest: seq<Byte>, text: seq<Byte>, b: Byte)
    requires |found| < |own| && front + own + rest == text + [b] && rest != []
    requires |text| >= |own| - |found| && text[|text| - (|own| - |found|)] != b
    ensures !(front + found + rest <= text + [b])
  {
    var bad := front + found + rest;
    assert (front + own + rest)[|text|] == rest[|rest| - 1] == bad[|bad| - 1];
  }

  /** Where what was found, with what comes after, is not how the stream goes on. */
  lemma HarmCorruptsNow(w: int, c: Sys) returns (d: Sys)
    requires Live(c) && Harmful(c) && w >= 0 && !(Found(c) + Rest(c) <= Own(c) + Rest(c))
    ensures Leads(w, c, d) && d.messages == c.messages && !(d.delivered <= Flatten(d.messages))
  {
    hide Live, R.NextMissing, Leads, Flatten, Found, Own, Rest, Repeated;
    var good, m, front, more := HarmDelivers(w, c);
    RoundsComplete(w, good, Outstanding(good));
    var right := Repeated(w, good, Outstanding(good));
    var bad := front + Found(c) + more;
    var read := HarmGoesOn(w, c, good, right, m, bad);
    d := Plus(right.(delivered := bad + read), m);
    WrongInPlace(front, Found(c), Own(c), Rest(c), more, read);
  }

  lemma WrongInPlace(front: seq<Byte>, found: seq<Byte>, own: seq<Byte>, rest: seq<Byte>, more: seq<Byte>, read: seq<Byte>)
    requires front + own + more + read == front + own + rest && !(found + rest <= own + rest)
    ensures !(front + found + more + read <= front + own + rest)
  {
    assert front + own + more + read == (front + own) + (more + read);
    assert more + read == ((front + own) + (more + read))[|front + own|..] == rest;
    if front + found + more + read <= front + own + rest {
      assert front + found + more + read == front + (found + (more + read));
      assert front + own + rest == front + (own + rest);
      PrefixCancels(front, found + rest, own + rest);
    }
  }

  lemma HarmCorruptsShort(w: int, c: Sys) returns (d: Sys)
    requires Live(c) && Harmful(c) && w >= 0 && |Found(c)| < |Own(c)| && c.isn + |c.history| < SEQ_MAX
    ensures Leads(w, c, d) && !(d.delivered <= Flatten(d.messages))
  {
    hide Inv, RoomInv, R.NextMissing, Leads, Released;
    var good, m, front, more := HarmDelivers(w, c);
    var text := Flatten(c.messages);
    PrefixFrom(good);
    assert |text| >= |Own(c)|;
    var at := |text| - (|Own(c)| - |Found(c)|);
    var b: Byte := if text[at] == 0 then 1 else 0;
    var right := OneMoreByte(w, good, b);
    FlattenAppend(c.messages, b);
    hide Flatten;
    var read := HarmGoesOn(w, c, good, right, m, front + Found(c) + more);
    d := Plus(right.(delivered := front + Found(c) + more + read), m);
    assert front + Found(c) + more + read == front + Found(c) + (more + read);
    assert front + Own(c) + more + read == front + Own(c) + (more + read);
    assert |right.delivered| > |good.delivered|;
    ShortenedIsNoPrefix(front, Found(c), Own(c), more + read, text, b);
  }

  lemma {:induction false} FlattenAppend(messages: seq<seq<Byte>>, b: Byte)
    ensures Flatten(messages + [[b]]) == Flatten(messages) + [b]
  {
    if messages == [] {
      assert messages + [[b]] == [[b]] && [[b]][1..] == [];
      assert Flatten([[b]]) == [b] + Flatten([]);
    } else {
      assert (messages + [[b]])[1..] == messages[1..] + [[b]];
      FlattenAppend(messages[1..], b);
    }
  }

  /** The read shows: a number is to spare, or what was found is already not how the stream goes on. */
  ghost predicate Shows(c: Sys) {
    c.isn + |c.history| < SEQ_MAX || (Stale(c) ==> !(Found(c) + Rest(c) <= Own(c) + Rest(c)))
  }

  /** From every live state about to make a harmful read that shows, the application can be given wrong bytes. */
  lemma HarmCorrupts(w: int, c: Sys) returns (d: Sys)
    requires Live(c) && Harmful(c) && w >= 0 && Shows(c)
    ensures Leads(w, c, d) && !(d.delivered <= Flatten(d.messages))
  {
    hide Live, Leads, Flatten, Rest;
    HarmShape(c);
    if |Found(c)| >= |Own(c)| {
      ReplacedIsNoPrefix(Found(c), Own(c), Rest(c));
    }
    if Found(c) + Rest(c) <= Own(c) + Rest(c) {
      d := HarmCorruptsShort(w, c);
    } else {
      d := HarmCorruptsNow(w, c);
    }
  }

  /** Bytes not fewer than the number's own always show, whatever numbers are left. */
  lemma LongShows(c: Sys)
    requires Live(c) && Harmful(c) && |Found(c)| >= |Own(c)|
    ensures Shows(c)
  {
    hide Live, Rest;
    HarmShape(c);
    ReplacedIsNoPrefix(Found(c), Own(c), Rest(c));
  }

  // ---------------------------------------------------------------- the exact condition

  /** However the run goes on, as long as the sender's handlers are not interleaved, the stream stays right. */
  ghost predicate StaysRight(w: int, c: Sys) {
    forall d :: Leads(w, c, d) ==> d.delivered <= Flatten(d.messages)
  }

  lemma HarmlessStaysRight(w: int, c: Sys)
    requires Inv(c) && !Harmful(c)
    ensures StaysRight(w, c)
  {
    hide Inv, Harmful, Flatten;
    forall d | Leads(w, c, d)
      ensures d.delivered <= Flatten(d.messages)
    {
      var es :| Legal(c, es) && AllSequential(c, es) && AllSteady(w, es) && Run(c, es) == d;
      SequentialIsUndisturbed(c, es);
      RunKeepsInv(c, es);
      PrefixFrom(d);
    }
  }

  lemma PrefixFrom(c: Sys)
    requires Inv(c)
    ensures c.delivered <= Flatten(c.messages)
  {
    DeliveredIsPrefix(c);
  }

  /**
   With a retransmission picked, and a number to spare or not fewer bytes found than the number's
   own: the stream stays right on every continuation if and only if the read would do no harm.
   */
  lemma StaysRightIff(w: int, c: Sys)
    requires Live(c) && c.pending.Some? && w >= 0
    requires c.isn + |c.history| < SEQ_MAX || (Stale(c) ==> |Found(c)| >= |Own(c)|)
    ensures StaysRight(w, c) <==> !Harmful(c)
  {
    hide Inv, Leads;
    if Harmful(c) {
      if |Found(c)| >= |Own(c)| {
        LongShows(c);
      }
      var d := HarmCorrupts(w, c);
    } else {
      hide StaysRight;
      HarmlessStaysRight(w, c);
    }
  }
}
