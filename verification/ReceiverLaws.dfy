/**
 What the receiver must do, handler by handler: which packets it has to keep, when an ACK goes out
 and which, and what a read answers in every status.
 */
module ReceiverLaws {
  import opened SeqNumber
  import opened OrderedKeys
  import opened Packets
  import opened LossListModel
  import opened Connection
  import opened Invariant
  import opened StreamSafety
  import opened Rounds
  import O = Occupancy
  import S = SenderModel
  import R = ReceiverModel
  import RB = RcvBufferModel
  import W = AckWindowModel

  // ---------------------------------------------------------------- which packets are kept

  /** The numbers the buffer has to take: from the last ACK on, as far as the free slots reach. */
  predicate InReach(r: R.Rcv, x: nat) {
    r.lastSentAck <= x <= r.lastSentAck + r.buf.maxSize - |r.buf.packets|
  }

  /** Among the numbers that can be in flight the admission test is that interval. */
  lemma AdmitsInReach(c: Sys, x: nat)
    requires InLimits(c) && (x < Top(c.snd) || x < c.rcv.lastSentAck) && x <= SEQ_MAX
    requires |c.rcv.buf.packets| <= c.rcv.buf.maxSize
    ensures R.Admits(c.rcv, x) <==> InReach(c.rcv, x)
  {
    DiffSign(x, c.rcv.lastSentAck);
    hide Diff;
  }

  lemma FlightInRange(c: Sys, p: Packet)
    requires Inv(c) && DataMsg(p) in c.net
    ensures InLimits(c) && (p.seqNumber < Top(c.snd) || p.seqNumber < c.rcv.lastSentAck) && p.seqNumber <= SEQ_MAX
    ensures c.rcv.lastSentAck <= p.seqNumber ==> c.rcv.buf.nextToRead <= p.seqNumber
  {
    hide HistoryInv, LossInv, PendingInv, StreamInv, WindowInv, ObeyInv;
    Limits(c);
    assert GoodMsg(c, DataMsg(p));
    assert p.seqNumber in c.received ==> c.isn <= p.seqNumber <= c.rcv.currRcv;
    hide SplitInv, AckInv, CrossInv, BufferInv, NetInv;
  }

  /** The loss report for the numbers from `first` to `last`: one word for one, two for more. */
  function Report(first: nat, last: nat): Msg {
    Nak(if first == last then [first] else [0x8000_0000 + first, last])
  }

  /**
   As long as the buffer is not overfilled, a packet that arrives is received and buffered if it
   is in reach, and otherwise changes nothing and is answered by nothing. One that jumps ahead of
   the highest number so far is answered by a report of exactly the numbers jumped over.
   */
  lemma StoredIff(c: Sys, p: Packet)
    requires Inv(c) && O.Fits(c) && Enabled(c, ToReceiver(DataMsg(p)))
    ensures
      var d := Apply(c, ToReceiver(DataMsg(p)));
      && (InReach(c.rcv, p.seqNumber) ==>
            && d.received == c.received + {p.seqNumber} && p.seqNumber in d.rcv.buf.packets
            && (p.seqNumber !in c.received ==> d.rcv.buf.packets[p.seqNumber] == p)
            && d.rcv.currRcv == (if p.seqNumber > c.rcv.currRcv then p.seqNumber else c.rcv.currRcv)
            && d.net == (if p.seqNumber > c.rcv.currRcv + 1
                         then c.net + {Report(c.rcv.currRcv + 1, p.seqNumber - 1)} else c.net))
      && (!InReach(c.rcv, p.seqNumber) ==> d == c)
  {
    hide Inv, R.OnData, R.Admits, InReach, AfterData, Report;
    FlightInRange(c, p);
    AdmitsInReach(c, p.seqNumber);
    if R.Admits(c.rcv, p.seqNumber) {
      BufferedIsReceived(c, p.seqNumber);
      GapIsTrue(c, p);
      TakenIn(c, p);
    } else {
      NotTakenIn(c, p);
    }
  }

  lemma NotTakenIn(c: Sys, p: Packet)
    requires !R.Admits(c.rcv, p.seqNumber)
    ensures AfterData(c, p) == c
  {
    hide R.OnData, R.Admits;
    NotAdmitted(c.rcv, p);
  }

  lemma TakenIn(c: Sys, p: Packet)
    requires R.Admits(c.rcv, p.seqNumber) && c.rcv.currRcv <= SEQ_MAX && p.seqNumber <= SEQ_MAX
    requires p.seqNumber in c.rcv.buf.packets ==> p.seqNumber in c.received
    requires Diff(p.seqNumber, c.rcv.currRcv) > 1 <==> p.seqNumber > c.rcv.currRcv + 1
    requires Diff(p.seqNumber, c.rcv.currRcv) > 0 <==> p.seqNumber > c.rcv.currRcv
    ensures
      var d := AfterData(c, p);
      && d.received == c.received + {p.seqNumber} && p.seqNumber in d.rcv.buf.packets
      && (p.seqNumber !in c.received ==> d.rcv.buf.packets[p.seqNumber] == p)
      && d.rcv.currRcv == (if p.seqNumber > c.rcv.currRcv then p.seqNumber else c.rcv.currRcv)
      && d.net == (if p.seqNumber > c.rcv.currRcv + 1
                   then c.net + {Report(c.rcv.currRcv + 1, p.seqNumber - 1)} else c.net)
  {
    hide R.OnData, R.Admits, Diff;
    DataShape(c.rcv, p);
  }

  lemma GapIsTrue(c: Sys, p: Packet)
    requires Inv(c) && DataMsg(p) in c.net && R.Admits(c.rcv, p.seqNumber)
    ensures c.rcv.currRcv <= SEQ_MAX && p.seqNumber <= SEQ_MAX
    ensures Diff(p.seqNumber, c.rcv.currRcv) > 1 <==> p.seqNumber > c.rcv.currRcv + 1
    ensures Diff(p.seqNumber, c.rcv.currRcv) > 0 <==> p.seqNumber > c.rcv.currRcv
  {
    hide HistoryInv, LossInv, PendingInv, ObeyInv, StreamInv, WindowInv, R.Admits, Diff;
    assert GoodMsg(c, DataMsg(p));
    AdmittedIsGood(c, p);
  }

  lemma BufferedIsReceived(c: Sys, x: nat)
    requires Inv(c)
    ensures x in c.rcv.buf.packets ==> x in c.received
  {
  }

  /** The first packet: the connecting side takes it always, the accepting side needs a free slot. */
  lemma FirstPacketAdmitted(isn: nat, maxSize: nat, connecting: bool)
    requires isn <= SEQ_MAX
    ensures R.Admits(R.InitialRcv(isn, maxSize, connecting), isn) <==> connecting || (isn > 0 && maxSize > 0)
  {
    var r := R.InitialRcv(isn, maxSize, connecting);
    DiffSign(isn, r.lastSentAck);
    assert RB.Available(r.buf) == maxSize;
    hide Diff;
  }

  // ---------------------------------------------------------------- what a read answers

  /** Some packet is acknowledged, buffered and not yet read. */
  ghost predicate SomeAwaiting(b: RB.RcvBuf) {
    exists x :: x in b.packets && RB.Awaiting(b, x)
  }

  lemma HasDataIff(b: RB.RcvBuf)
    requires b.nextToAck <= SEQ_MAX
    ensures RB.HasDataToRead(b) <==> SomeAwaiting(b)
  {
    hide RB.Awaiting, RB.HasDataToRead, RB.Readable;
    RB.ReadableMeaning(b);
    RB.HasDataMeaning(b);
    if RB.Readable(b) != [] {
      assert RB.Readable(b)[0] in RB.Readable(b);
    }
  }

  /**
   For every receiver: a read fails exactly when the socket is alive but not connected, or dead
   with nothing left to read; it waits exactly when the socket is connected and nothing awaits; in
   every other case it delivers what is awaiting and fits, also from a socket that is dead.
   */
  lemma RecvOutcome(r: R.Rcv, room: nat)
    requires r.buf.nextToAck <= SEQ_MAX
    ensures
      var (result, r') := R.Recv(r, room);
      && (result.Failed? <==>
            (r.status.IsAlive() && r.status != S.Connected) || (!r.status.IsAlive() && !SomeAwaiting(r.buf)))
      && (result.Pending? <==> r.status == S.Connected && !SomeAwaiting(r.buf))
      && (!result.Delivered? ==> r' == r)
      && (result.Delivered? ==>
            && r' == r.(buf := r'.buf) && |result.data| <= room
            && (room == 0 ==> r' == r)
            && (room > 0 ==> (result.data, r'.buf) == RB.ReadBuffer(r.buf, room)))
  {
    HasDataIff(r.buf);
    RB.ReadMeaning(r.buf, room);
    hide RB.HasDataToRead, RB.ReadBuffer, SomeAwaiting;
  }

  /** A read with enough room, from a socket connected or dead, delivers everything acknowledged. */
  lemma ReadsAll(c: Sys, room: nat)
    requires Inv(c) && (c.rcv.status == S.Connected || !c.rcv.status.IsAlive()) && room >= Enough(c.rcv.buf)
    ensures
      var d := Apply(c, Recv(room));
      && d.rcv.buf.nextToRead == d.rcv.buf.nextToAck == c.rcv.buf.nextToAck && d.history == c.history
      && c.isn <= c.rcv.buf.nextToAck <= c.isn + |c.history|
      && d.delivered == Bytes(d.history[..c.rcv.buf.nextToAck - c.isn])
  {
    hide HistoryInv, BufferInv, LossInv, PendingInv, ObeyInv, SplitInv, WindowInv, CrossInv, NetInv, Bytes;
    hide R.Recv, Enough, Below;
    TakesAll(c, room);
    RecvParts(c, room);
    assert c.delivered + [] == c.delivered;
  }

  lemma TakesAll(c: Sys, room: nat)
    requires AckInv(c.isn, c.received, c.rcv)
    requires StreamInv(c.isn, c.history, c.received, c.rcv.buf, c.delivered)
    requires (c.rcv.status == S.Connected || !c.rcv.status.IsAlive()) && room >= Enough(c.rcv.buf)
    ensures R.Recv(c.rcv, room).1.buf.nextToRead == c.rcv.buf.nextToAck
  {
    var b := c.rcv.buf;
    var keys := RB.Readable(b);
    hide Bytes, KeysIn;
    ContiguousKeys(b.packets.Keys, b.nextToRead, b.nextToAck);
    assert |keys| == b.nextToAck - b.nextToRead;
    FitsAll(b.packets, keys, room);
    hide RB.Payload, RB.FitCount, Below, StreamInv;
    assert keys[..|keys|] == keys;
    TakenKeys(b, keys);
  }

  lemma DeadStep(c: Sys, e: Event)
    requires Enabled(c, e) && !c.rcv.status.IsAlive()
    ensures !Apply(c, e).rcv.status.IsAlive() && Apply(c, e).rcv.buf.nextToAck == c.rcv.buf.nextToAck
  {
    hide S.PickResend, S.ReadResend, S.FetchNew, S.OnFullAck, S.OnNak, S.OnExp, S.Send, S.OnLightAck;
    hide R.OnData, R.SendAck, R.Recv, R.Admits, R.OnAck2;
    if e.Recv? {
      RecvKeepsAck(c.rcv, e.room);
    }
  }

  lemma RecvKeepsAck(r: R.Rcv, room: nat)
    ensures R.Recv(r, room).1.buf.nextToAck == r.buf.nextToAck && R.Recv(r, room).1.status == r.status
  {
    hide RB.Readable, RB.FitCount, RB.Payload, RB.HasDataToRead;
  }

  lemma {:induction false} DeadRun(c: Sys, es: seq<Event>)
    requires Legal(c, es) && !c.rcv.status.IsAlive()
    ensures !Run(c, es).rcv.status.IsAlive() && Run(c, es).rcv.buf.nextToAck == c.rcv.buf.nextToAck
    decreases |es|
  {
    hide Apply, Enabled;
    if es != [] {
      DeadStep(c, es[0]);
      DeadRun(Apply(c, es[0]), es[1..]);
    }
  }

  /**
   What was acknowledged before the receiver closed or broke is not lost to the application:
   whatever happens afterwards, one read with enough room still brings the bytes delivered to
   exactly the blocks acknowledged by then.
   */
  lemma ClosedDeliversRest(c: Sys, status: S.Status, es: seq<Event>, room: nat)
    requires Inv(c) && !status.IsAlive()
    requires
      var closed := Apply(c, CloseReceiver(status));
      && Legal(closed, es) && AllUndisturbed(closed, es)
      && room >= Enough(Run(closed, es).rcv.buf)
    ensures
      var d := Apply(Run(Apply(c, CloseReceiver(status)), es), Recv(room));
      && c.isn <= c.rcv.buf.nextToAck <= c.isn + |d.history|
      && d.delivered == Bytes(d.history[..c.rcv.buf.nextToAck - c.isn])
  {
    hide Inv, Run, Legal, AllUndisturbed, Enough, Bytes;
    var closed := Apply(c, CloseReceiver(status));
    StepKeepsInv(c, CloseReceiver(status));
    DeadRun(closed, es);
    RunKeepsInv(closed, es);
    ReadsAll(Run(closed, es), room);
  }

  // ---------------------------------------------------------------- when an ACK goes out

  lemma NextIs(c: Sys, f: nat)
    requires Inv(c) && FirstMissing(c, f) && f <= SEQ_MAX
    ensures R.NextMissing(c.rcv) == f && c.rcv.lastSentAck <= f && c.rcv.lastAck2 <= c.rcv.buf.nextToAck <= f
    ensures c.rcv.lastSentAck == c.rcv.buf.nextToAck || (c.rcv.lastSentAck == c.isn - 1 && c.rcv.buf.nextToAck == c.isn)
  {
    hide HistoryInv, BufferInv, LossInv, PendingInv, ObeyInv, StreamInv, NetInv;
    SomeMissing(c, f);
    AckIsFirstMissing(c);
    CountersAreOrdered(c, f);
    hide R.NextMissing;
    var n := R.NextMissing(c.rcv);
    assert f < n ==> f in c.received;
    assert n < f ==> n in c.received;
  }

  lemma SomeMissing(c: Sys, f: nat)
    requires SplitInv(c.isn, c.received, c.rcv) && FirstMissing(c, f) && f <= SEQ_MAX
    ensures !(c.rcv.currRcv == SEQ_MAX && c.rcv.lossList == map[])
  {
    assert c.rcv.lossList == map[] ==> !Has(c.rcv.lossList, f);
  }

  /** The state after a full ACK of `f`: read position free up to `f`, the ACK numbered, stored and in flight. */
  function FullyAcked(c: Sys, f: nat): Sys
    requires c.rcv.window.size > 0
  {
    var ack := Shift(ACK_MAX, c.rcv.ackSeq, 1);
    c.(rcv := c.rcv.(lastSentAck := f, ackSeq := ack, window := W.Store(c.rcv.window, f, ack),
                     buf := c.rcv.buf.(nextToAck := f)),
       net := c.net + {FullAck(ack, f)}, acks := c.acks + [f])
  }

  /**
   When an ACK is sent and which, with `f` the first missing number. What is confirmed already is
   not acknowledged again. Otherwise a light step sends a light ACK and moves nothing; a full step
   that has something new to acknowledge always does so, however recent the last ACK; with nothing
   new it repeats the last one exactly when that was not recent.
   */
  lemma AckOutcome(c: Sys, f: nat, light: bool, recent: bool)
    requires Inv(c) && FirstMissing(c, f) && f <= SEQ_MAX && Enabled(c, SendAck(light, recent))
    ensures
      var d := Apply(c, SendAck(light, recent));
      && c.rcv.lastAck2 <= f && c.rcv.lastSentAck <= f
      && (f == c.rcv.lastAck2 ==> d == c)
      && (f > c.rcv.lastAck2 && light ==> d == c.(net := c.net + {LightAck(f)}))
      && (f > c.rcv.lastAck2 && !light && f > c.rcv.lastSentAck ==> d == FullyAcked(c, f))
      && (f > c.rcv.lastAck2 && !light && f == c.rcv.lastSentAck ==> d == if recent then c else FullyAcked(c, f))
  {
    hide Inv, R.NextMissing, R.SendAck, FirstMissing, W.Store, Shift;
    NextIs(c, f);
    AckBranches(c.rcv, f, light, recent);
  }

  lemma AckBranches(r: R.Rcv, f: nat, light: bool, recent: bool)
    requires r.window.size > 0 && R.NextMissing(r) == f <= SEQ_MAX && r.lastAck2 <= r.buf.nextToAck <= f
    requires r.lastSentAck <= f && r.buf.nextToAck <= r.lastSentAck + 1 && (f == r.lastSentAck ==> r.buf.nextToAck == f)
    ensures
      var ack := Shift(ACK_MAX, r.ackSeq, 1);
      var acked := r.(lastSentAck := f, ackSeq := ack, window := W.Store(r.window, f, ack), buf := r.buf.(nextToAck := f));
      R.SendAck(r, light, recent) ==
      if f == r.lastAck2 then (r, None)
      else if light then (r, Some(R.Light(f)))
      else if f > r.lastSentAck || !recent then (acked, Some(R.Full(ack, f)))
      else (r, None)
  {
    hide R.NextMissing, W.Store, Shift;
    DiffSign(f, r.lastSentAck);
    DiffSign(f, r.buf.nextToAck);
    DiffSign(f, r.lastAck2);
    hide Diff;
  }

  /** Once every number up to the maximum is received nothing more is acknowledged, but light ACKs carry 0. */
  lemma ExhaustedAck(c: Sys, light: bool, recent: bool)
    requires Inv(c) && c.rcv.currRcv == SEQ_MAX && c.rcv.lossList == map[] && Enabled(c, SendAck(light, recent))
    ensures Apply(c, SendAck(light, recent)) == if light then c.(net := c.net + {LightAck(0)}) else c
  {
    hide HistoryInv, BufferInv, LossInv, PendingInv, ObeyInv, SplitInv, StreamInv, CrossInv, NetInv, Below;
    PeekMeaning(map[], 0);
    assert R.NextMissing(c.rcv) == 0;
    assert 0 < c.rcv.lastAck2;
    hide R.NextMissing, PeekAfter;
    assert 0 < c.rcv.buf.nextToAck <= SEQ_MAX;
    if c.rcv.lastSentAck > 0 {
      DiffSign(0, c.rcv.lastSentAck);
    }
    hide W.Store;
  }
}
