/**
 Eventual delivery. Between two rounds of recovery the network and both applications do whatever
 they like, short of closing a socket: lose everything in flight, repeat old messages, send more,
 read nothing. However they choose, after as many rounds as blocks were outstanding every byte
 accepted before has been read.
 */
module Eventual {
  import opened SeqNumber
  import opened OrderedKeys
  import opened Packets
  import opened LossListModel
  import opened Connection
  import opened Invariant
  import opened StreamSafety
  import opened Recovery
  import opened Rounds
  import opened Reliability
  import S = SenderModel
  import R = ReceiverModel
  import SB = SndBufferModel

  // ---------------------------------------------------------------- the schedule

  /** Neither end is closed, and the sender does not give up at a timeout. */
  predicate Gentle(e: Event) {
    !e.CloseSender? && !e.CloseReceiver? && !(e.Exp? && e.giveUp)
  }

  predicate AllGentle(es: seq<Event>) {
    forall i :: 0 <= i < |es| ==> Gentle(es[i])
  }

  /** Some free behaviour, then a round. */
  ghost predicate Leg(w: int, c: Sys, es: seq<Event>, d: Sys) {
    && Legal(c, es) && AllUndisturbed(c, es) && AllGentle(es)
    && !Harmful(Run(c, es)) && d == Round(w, Run(c, es))
  }

  /** The states before the first leg, between legs and after the last. */
  ghost predicate Schedule(w: int, segments: seq<seq<Event>>, states: seq<Sys>) {
    && |states| == |segments| + 1
    && forall i {:trigger segments[i]} :: 0 <= i < |segments| ==> Leg(w, states[i], segments[i], states[i + 1])
  }

  /** Among what may happen between rounds: the network loses everything in flight. */
  lemma {:induction false} LosesAll(c: Sys) returns (es: seq<Event>)
    ensures Legal(c, es) && AllUndisturbed(c, es) && AllGentle(es) && Run(c, es) == c.(net := {})
    decreases |c.net|
  {
    if c.net == {} {
      es := [];
    } else {
      var m :| m in c.net;
      var d := Apply(c, Lose(m));
      var rest := LosesAll(d);
      es := [Lose(m)] + rest;
      assert es[1..] == rest;
    }
  }

  /** And a message is delivered to the receiver without leaving the network: it can come again. */
  lemma ComesAgain(c: Sys, m: Msg)
    requires m in c.net && c.rcv.status.IsAlive() && (m.DataMsg? || m.Ack2?)
    ensures Enabled(c, ToReceiver(m)) && m in Apply(c, ToReceiver(m)).net
  {
    hide R.OnData, R.OnAck2, R.Admits;
  }

  // ---------------------------------------------------------------- records only grow

  ghost predicate Extends(c: Sys, d: Sys) {
    d.isn == c.isn && c.history <= d.history && |c.acks| <= |d.acks|
  }

  lemma TryExtends(c: Sys, e: Event)
    ensures Extends(c, Try(c, e))
  {
    hide S.PickResend, S.ReadResend, S.FetchNew, S.OnFullAck, S.OnNak, S.OnExp, S.Send, R.OnData, R.SendAck, R.Recv;
    hide R.Admits, R.OnAck2, S.OnLightAck;
  }

  lemma {:induction false} RunExtends(c: Sys, es: seq<Event>)
    requires Legal(c, es)
    ensures Extends(c, Run(c, es))
    decreases |es|
  {
    hide Apply, Enabled;
    if es != [] {
      TryExtends(c, es[0]);
      RunExtends(Apply(c, es[0]), es[1..]);
    }
  }

  lemma {:induction false} AttemptExtends(c: Sys, es: seq<Event>)
    ensures Extends(c, Attempt(c, es))
    decreases |es|
  {
    hide Try;
    if es != [] {
      TryExtends(c, es[0]);
      AttemptExtends(Try(c, es[0]), es[1..]);
    }
  }

  lemma RoundExtends(w: int, c: Sys)
    ensures Extends(c, Round(w, c))
  {
    hide Try, Attempt, R.SendAck, Enough, SweepEvents, Members;
    var c1 := Settled(c);
    TryExtends(c, ReadResend);
    TryExtends(Try(c, ReadResend), Obey);
    var c2 := Swept(c1);
    AttemptExtends(c1, SweepEvents(|Members(c1.snd.lossList)|));
    AckedExtends(c2);
    RestExtends(w, Acked(c2));
    hide Settled, Swept, Acked, Resupplied, Delivered, ReadOut;
  }

  lemma AckedExtends(c: Sys)
    ensures Extends(c, Acked(c))
  {
    hide Try, R.SendAck;
    var d := Try(c, SendAck(false, false));
    TryExtends(c, SendAck(false, false));
    var message := if c.rcv.window.size > 0 then R.SendAck(c.rcv, false, false).1 else None;
    if message.Some? && message.value.Full? {
      var e := ToSender(FullAck(message.value.ack, message.value.next), false);
      TryExtends(d, e);
      TryExtends(Try(d, e), Obey);
    }
  }

  lemma RestExtends(w: int, c: Sys)
    ensures Extends(c, ReadOut(Delivered(Resupplied(w, c))))
  {
    hide Try, Attempt, Enough, SweepEvents, Members, PacketOf, R.NextMissing;
    var c1 := Try(Try(c, FetchNew(w)), Exp(false));
    TryExtends(c, FetchNew(w));
    TryExtends(Try(c, FetchNew(w)), Exp(false));
    var c2 := Swept(c1);
    AttemptExtends(c1, SweepEvents(|Members(c1.snd.lossList)|));
    var c3 := Delivered(c2);
    TryExtends(c2, ToReceiver(DataMsg(PacketOf(c2.isn, c2.history, R.NextMissing(c2.rcv)))));
    var c4 := Try(c3, SendAck(false, false));
    TryExtends(c3, SendAck(false, false));
    TryExtends(c4, Recv(Enough(c4.rcv.buf)));
  }

  lemma LegExtends(w: int, c: Sys, es: seq<Event>, d: Sys)
    requires Leg(w, c, es, d)
    ensures Extends(c, Run(c, es)) && Extends(Run(c, es), d)
  {
    hide Round, Run, Legal, AllUndisturbed, Harmful;
    RunExtends(c, es);
    RoundExtends(w, Run(c, es));
  }

  lemma {:induction false} ScheduleExtends(w: int, segments: seq<seq<Event>>, states: seq<Sys>)
    requires Schedule(w, segments, states)
    ensures Extends(states[0], states[|segments|])
    decreases |segments|
  {
    hide Leg;
    if segments != [] {
      assert Leg(w, states[0], segments[0], states[1]);
      LegExtends(w, states[0], segments[0], states[1]);
      RestOf(w, segments, states);
      ScheduleExtends(w, segments[1..], states[1..]);
    }
  }

  lemma RestOf(w: int, segments: seq<seq<Event>>, states: seq<Sys>)
    requires Schedule(w, segments, states) && segments != []
    ensures Schedule(w, segments[1..], states[1..]) && Leg(w, states[0], segments[0], states[1])
  {
    hide Leg;
    var rest, left := segments[1..], states[1..];
    forall i | 0 <= i < |rest|
      ensures Leg(w, left[i], rest[i], left[i + 1])
    {
      assert rest[i] == segments[i + 1];
    }
  }

  // ---------------------------------------------------------------- staying connected

  /** Two connected sockets in a run that has not used up its ACK numbers. */
  ghost predicate Going(c: Sys) {
    && Inv(c) && RoomInv(c) && Ack2Inv(c)
    && c.snd.status == S.Connected && c.rcv.status == S.Connected
  }

  /** The numbers have not run out. */
  ghost predicate Within(c: Sys) {
    c.isn + |c.history| <= SEQ_MAX && |c.acks| <= ACK_MAX
  }

  lemma GoingIsLive(c: Sys)
    requires Going(c) && Within(c)
    ensures Live(c) && Top(c.snd) <= SEQ_MAX
  {
    TopIsBounded(c);
  }

  lemma GentleKeepsStatus(c: Sys, e: Event)
    requires Inv(c) && Enabled(c, e) && Gentle(e) && Top(c.snd) <= SEQ_MOD
    ensures Apply(c, e).snd.status == c.snd.status && Apply(c, e).rcv.status == c.rcv.status
  {
    hide HistoryInv, BufferInv, LossInv, PendingInv, SplitInv, AckInv, StreamInv, CrossInv, NetInv, ObeyInv;
    hide S.PickResend, S.ReadResend, S.FetchNew, S.OnExp, S.OnFullAck, S.OnNak, R.OnData, R.SendAck, R.Admits;
    match e
    case ToSender(_, _) => PeersNeverBreak(c, e);
    case Obey => PeersNeverBreak(c, e);
    case ToReceiver(m) =>
      if m.DataMsg? {
        if R.Admits(c.rcv, m.packet.seqNumber) { DataShape(c.rcv, m.packet); } else { NotAdmitted(c.rcv, m.packet); }
      }
    case SendAck(light, recent) => SendAckParts(c, light, recent);
    case _ => SenderShape(c.snd, e);
  }

  lemma {:induction false} RunKeepsGoing(c: Sys, es: seq<Event>)
    requires Going(c) && Legal(c, es) && AllUndisturbed(c, es) && AllGentle(es) && Within(Run(c, es))
    ensures Going(Run(c, es))
    decreases |es|
  {
    hide Inv, RoomInv, Ack2Inv, Apply, Enabled, Undisturbed;
    RunExtends(c, es);
    if es != [] {
      GoingIsLive(c);
      var d := Apply(c, es[0]);
      RunExtends(d, es[1..]);
      GentleKeepsStatus(c, es[0]);
      StepKeepsInv(c, es[0]);
      StepKeepsRoom(c, es[0]);
      StepKeepsAck2(c, es[0]);
      RunKeepsGoing(d, es[1..]);
    }
  }

  lemma RoundKeepsGoing(w: int, c: Sys)
    requires Going(c) && Within(c) && !Harmful(c) && w >= 0 && Within(Round(w, c))
    ensures Going(Round(w, c)) && Continues(c, Round(w, c))
  {
    hide Inv, RoomInv, Ack2Inv, Round, R.NextMissing, Harmful;
    GoingIsLive(c);
    RoundGains(w, c);
    var d := Round(w, c);
    var es :| Legal(c, es) && AllSequential(c, es) && AllSteady(w, es) && Run(c, es) == d;
    SequentialIsUndisturbed(c, es);
    Ack2Run(c, es);
  }

  // ---------------------------------------------------------------- main result

  /** One leg: still going, further along, and everything below the first missing number read. */
  lemma LegGains(w: int, c: Sys, es: seq<Event>, d: Sys)
    requires Going(c) && w >= 0 && Leg(w, c, es, d) && Within(d)
    ensures Going(d) && Continues(c, d) && R.NextMissing(c.rcv) <= R.NextMissing(d.rcv) == d.rcv.buf.nextToRead
    ensures R.NextMissing(c.rcv) < R.NextMissing(d.rcv) || c.isn + |c.history| <= R.NextMissing(d.rcv)
  {
    hide Inv, RoomInv, Ack2Inv, Round, R.NextMissing, Harmful, Run, Legal, AllUndisturbed, AllGentle, Continues;
    var c1 := Run(c, es);
    LegExtends(w, c, es, d);
    GoingIsLive(c);
    RunKeepsGoing(c, es);
    GoingIsLive(c1);
    RoundKeepsGoing(w, c1);
    NextIsFirst(c);
    NextIsFirst(c1);
    FirstMissingGrows(c, es, R.NextMissing(c.rcv), R.NextMissing(c1.rcv));
    RoundGains(w, c1);
    ContinuesRun(c, es);
    ContinuesOn(c, c1, d);
  }

  /** The first missing number climbs by at least one a leg until it passes `goal`. */
  lemma {:induction false} GoalIsRead(w: int, segments: seq<seq<Event>>, states: seq<Sys>, goal: nat)
    requires Schedule(w, segments, states) && Going(states[0]) && w >= 0 && goal <= states[0].isn + |states[0].history|
    requires 1 <= |segments| && goal - R.NextMissing(states[0].rcv) <= |segments|
    requires Within(states[|segments|])
    ensures Going(states[|segments|]) && states[|segments|].rcv.buf.nextToRead >= goal
    ensures Continues(states[0], states[|segments|])
    decreases |segments|
  {
    hide Going, Leg, R.NextMissing, Continues;
    var c, d := states[0], states[1];
    RestOf(w, segments, states);
    LegExtends(w, c, segments[0], d);
    ScheduleExtends(w, segments[1..], states[1..]);
    LegGains(w, c, segments[0], d);
    if |segments| > 1 {
      GoalIsRead(w, segments[1..], states[1..], goal);
      ContinuesOn(c, d, states[|segments|]);
    }
  }

  lemma BytesGrow(blocks: seq<Block>, n: nat, m: nat)
    requires n <= m <= |blocks|
    ensures Bytes(blocks[..n]) <= Bytes(blocks[..m])
  {
    hide Bytes;
    BytesAppend(blocks[..n], blocks[n..m]);
    assert blocks[..m] == blocks[..n] + blocks[n..m];
  }

  lemma ReadCovers(c: Sys, d: Sys)
    requires HistoryInv(c.messages, c.history, c.snd.buf)
    requires StreamInv(d.isn, d.history, d.received, d.rcv.buf, d.delivered)
    requires d.isn == c.isn && c.history <= d.history && d.rcv.buf.nextToRead >= c.isn + |c.history|
    ensures Flatten(c.messages) <= d.delivered
  {
    hide SB.SegmentAll, SB.Reassemble, Bytes, Flatten, AsPacket;
    var n := |c.history|;
    var m := d.rcv.buf.nextToRead - c.isn;
    SB.ReassembleAll(c.messages, c.snd.buf.payloadSize, 0);
    BytesGrow(d.history, n, m);
    assert d.history[..n] == c.history;
  }

  lemma StartRoom(k: Config)
    requires k.rcvMaxSize > 0
    ensures RoomInv(Start(k)) && Start(k).isn == k.isn
  {
  }

  /**
   From every reachable state of two connected sockets, whatever happens between the rounds: as
   many rounds as blocks are outstanding deliver every byte accepted so far, as long as neither
   block numbers nor ACK numbers run out. The schedule is itself a run of the connection.
   */
  lemma EventuallyDelivered(k: Config, w: int, segments: seq<seq<Event>>, states: seq<Sys>)
    requires Covered(k) && k.rcvMaxSize > 0 && w >= 0
    requires Schedule(w, segments, states) && Reachable(k, states[0])
    requires states[0].snd.status == S.Connected && states[0].rcv.status == S.Connected
    requires |segments| >= Outstanding(states[0])
    requires Within(states[|segments|])
    ensures
      var c, d := states[0], states[|segments|];
      Reachable(k, d) && Flatten(c.messages) <= d.delivered
  {
    hide Going, Leg, R.NextMissing, Start;
    var c, d := states[0], states[|segments|];
    ScheduleExtends(w, segments, states);
    ReachableGoes(k, c);
    hide Continues;
    GoalIsRead(w, segments, states, c.isn + |c.history|);
    Covers(c, d);
    ContinuesOn(Start(k), c, d);
  }

  lemma ReachableGoes(k: Config, c: Sys)
    requires Covered(k) && k.rcvMaxSize > 0 && Reachable(k, c) && |c.acks| <= ACK_MAX
    requires c.snd.status == S.Connected && c.rcv.status == S.Connected
    ensures Going(c) && c.isn == k.isn
  {
    hide Inv, Start, Legal, Run, AllUndisturbed, Ack2Inv;
    StartRoom(k);
    hide RoomInv;
    var es :| Legal(Start(k), es) && AllUndisturbed(Start(k), es) && Run(Start(k), es) == c;
    StartInv(k);
    StartAck2(k);
    RoomRun(Start(k), es);
    RunKeepsInv(Start(k), es);
    RunKeepsIsn(Start(k), es);
    Ack2Run(Start(k), es);
  }

  lemma Covers(c: Sys, d: Sys)
    requires Going(c) && Going(d) && Extends(c, d) && d.rcv.buf.nextToRead >= c.isn + |c.history|
    ensures Flatten(c.messages) <= d.delivered
  {
    ReadCovers(c, d);
  }
}
