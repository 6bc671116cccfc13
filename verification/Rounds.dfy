/**
 One round of recovery, as a fixed schedule of the two ends: finish the handlers under way, work
 off the loss list, acknowledge, obey, send anew, time out, resend, deliver the packet the
 receiver waits for, acknowledge and read. Every round brings at least one more block across.
 */
module Rounds {
  import opened SeqNumber
  import opened OrderedKeys
  import opened Packets
  import opened LossListModel
  import opened Connection
  import opened Invariant
  import opened StreamSafety
  import opened Recovery
  import S = SenderModel
  import R = ReceiverModel
  import SB = SndBufferModel
  import RB = RcvBufferModel

  // ---------------------------------------------------------------- the schedule

  /** A step is taken if it can be. */
  function Try(c: Sys, e: Event): Sys {
    if Enabled(c, e) then Apply(c, e) else c
  }

  function Attempt(c: Sys, es: seq<Event>): Sys
    decreases |es|
  {
    if es == [] then c else Attempt(Try(c, es[0]), es[1..])
  }

  function Settled(c: Sys): Sys {
    Try(Try(c, ReadResend), Obey)
  }

  ghost function Swept(c: Sys): Sys {
    Attempt(c, SweepEvents(|Members(c.snd.lossList)|))
  }

  /** The receiver acknowledges, and the sender takes in what was sent. */
  function Acked(c: Sys): Sys {
    var d := Try(c, SendAck(false, false));
    var message := if c.rcv.window.size > 0 then R.SendAck(c.rcv, false, false).1 else None;
    if message.Some? && message.value.Full? then
      Try(Try(d, ToSender(FullAck(message.value.ack, message.value.next), false)), Obey)
    else d
  }

  ghost function Resupplied(w: int, c: Sys): Sys {
    Swept(Try(Try(c, FetchNew(w)), Exp(false)))
  }

  function Delivered(c: Sys): Sys {
    Try(c, ToReceiver(DataMsg(PacketOf(c.isn, c.history, R.NextMissing(c.rcv)))))
  }

  /** Room for everything that may be read. */
  ghost function Enough(b: RB.RcvBuf): nat {
    |RB.Payload(b.packets, RB.Readable(b))| + 1
  }

  ghost function ReadOut(c: Sys): Sys {
    var d := Try(c, SendAck(false, false));
    Try(d, Recv(Enough(d.rcv.buf)))
  }

  ghost function Round(w: int, c: Sys): Sys {
    ReadOut(Delivered(Resupplied(w, Acked(Swept(Settled(c))))))
  }

  // ---------------------------------------------------------------- finishing and sweeping

  /** Live, between handlers. */
  ghost predicate Quiet(c: Sys) {
    Live(c) && c.pending.None? && c.obeying.None?
  }

  /** Live, between handlers, with nothing scheduled. */
  ghost predicate Idle(c: Sys) {
    Quiet(c) && c.snd.lossList == map[]
  }

  lemma SettledIsQuiet(w: int, c: Sys)
    requires Live(c) && !Harmful(c)
    ensures
      var d := Settled(c);
      && Quiet(d) && Leads(w, c, d) && SameStream(c, d)
      && d.rcv == c.rcv && d.received == c.received
  {
    hide Inv, RoomInv, Leads, Grows, S.ReadResend, S.OnFullAck, Released;
    var c1 := c;
    LeadsSame(w, c);
    if c.pending.Some? {
      c1 := LiveStep(w, c, ReadResend);
    }
    if c1.obeying.Some? {
      var d := LiveStep(w, c1, Obey);
      LeadsOn(w, c, c1, d);
    }
  }

  lemma {:induction false} SweepIsSteady(w: int, n: nat)
    ensures AllSteady(w, SweepEvents(n))
  {
    if n > 0 {
      SweepIsSteady(w, n - 1);
    }
  }

  lemma {:induction false} AttemptIsRun(c: Sys, es: seq<Event>)
    requires Legal(c, es)
    ensures Attempt(c, es) == Run(c, es)
    decreases |es|
  {
    if es != [] {
      AttemptIsRun(Apply(c, es[0]), es[1..]);
    }
  }

  lemma LiveIsReady(c: Sys)
    requires Quiet(c)
    ensures Ready(c) && (forall x: nat :: Has(c.snd.lossList, x) ==> x in Members(c.snd.lossList))
  {
    hide HistoryInv, PendingInv, ObeyInv, SplitInv, AckInv, StreamInv, WindowInv, CrossInv, NetInv;
    TopIsBounded(c);
    forall x: nat | Has(c.snd.lossList, x)
      ensures x in Members(c.snd.lossList)
    {
      HasBounds(c.snd.lossList, x);
    }
  }

  lemma SweptIsLive(c: Sys, d: Sys)
    requires Quiet(c) && Ready(d) && d == c.(snd := c.snd.(lossList := map[]), net := d.net)
    ensures Idle(d)
  {
    hide Inv;
  }

  lemma SweptIsIdle(w: int, c: Sys)
    requires Quiet(c)
    ensures
      var d := Swept(c);
      && Idle(d) && Leads(w, c, d)
      && d == c.(snd := c.snd.(lossList := map[]), net := d.net)
      && (forall x: nat :: Has(c.snd.lossList, x) ==> DataMsg(PacketOf(c.isn, c.history, x)) in d.net)
  {
    LiveIsReady(c);
    hide Inv, RoomInv, Has, Legal, Run, AllSequential, Attempt, Members, PacketOf, Resent, Released, AllSteady;
    var m := c.snd.lossList;
    var es := SweepEvents(|Members(m)|);
    SweepDrains(c);
    SweepIsSteady(w, |Members(m)|);
    AttemptIsRun(c, es);
    SweptIsLive(c, Run(c, es));
  }

  // ---------------------------------------------------------------- acknowledging

  lemma NextIsFirst(c: Sys)
    requires Live(c)
    ensures FirstMissing(c, R.NextMissing(c.rcv)) && R.NextMissing(c.rcv) <= c.rcv.currRcv + 1 <= Top(c.snd)
    ensures R.NextMissing(c.rcv) <= SEQ_MAX && c.rcv.buf.nextToAck <= R.NextMissing(c.rcv)
    ensures c.snd.lastAckReceived <= R.NextMissing(c.rcv)
  {
    TopIsBounded(c);
    AckIsFirstMissing(c);
    CountersAreOrdered(c, R.NextMissing(c.rcv));
    hide Inv, R.NextMissing;
  }

  /** After a full ACK the next missing packet is the one the receiver will admit. */
  lemma SyncParts(isn: nat, received: set<nat>, r: R.Rcv)
    requires AckInv(isn, received, r) && WindowInv(isn, r)
    requires r.buf.nextToAck <= R.NextMissing(r) <= SEQ_MAX && R.NextMissing(r) !in received
    requires r.lastSentAck == isn - 1 && isn !in received ==> |r.buf.packets| < r.buf.maxSize
    ensures
      var n := R.NextMissing(r);
      var (r', message) := R.SendAck(r, false, false);
      && R.Admits(r', n) && r'.buf.nextToAck == n
      && message.Some? == (n != r.lastAck2)
      && (message.Some? ==> message.value.Full? && message.value.next == n)
  {
    var n := R.NextMissing(r);
    hide R.NextMissing;
    DiffSign(n, r.lastSentAck);
    DiffSign(n, r.buf.nextToAck);
    DiffSign(n, r.lastAck2);
  }

  lemma AckShape(c: Sys)
    requires Live(c)
    ensures
      var n := R.NextMissing(c.rcv);
      && c.rcv.window.size > 0
      && var (r', message) := R.SendAck(c.rcv, false, false);
      && R.Admits(r', n) && r'.buf == c.rcv.buf.(nextToAck := n) && R.NextMissing(r') == n
      && message.Some? == (n != c.rcv.lastAck2)
      && (message.Some? ==> message.value.Full? && message.value.next == n)
  {
    hide R.SendAck, R.Admits;
    NextIsFirst(c);
    SyncParts(c.isn, c.received, c.rcv);
    SendAckParts(c, false, false);
    hide PeekAfter;
  }

  /** The receiver has acknowledged the first missing number and would admit it. */
  ghost predicate Acknowledged(c: Sys) {
    R.Admits(c.rcv, R.NextMissing(c.rcv)) && c.rcv.buf.nextToAck == R.NextMissing(c.rcv)
  }

  lemma AckStep(w: int, c: Sys) returns (d: Sys)
    requires Quiet(c)
    ensures Enabled(c, SendAck(false, false)) && d == Apply(c, SendAck(false, false))
    ensures Quiet(d) && Leads(w, c, d) && SameStream(c, d) && Grows(c, d) && d.snd == c.snd && d.received == c.received
    ensures R.NextMissing(d.rcv) == R.NextMissing(c.rcv) && Acknowledged(d) && d.delivered == c.delivered
    ensures d.rcv.buf == c.rcv.buf.(nextToAck := d.rcv.buf.nextToAck)
    ensures
      var message := R.SendAck(c.rcv, false, false).1;
      && message.Some? == (R.NextMissing(c.rcv) != c.rcv.lastAck2)
      && (message.Some? ==>
            message.value.Full? && message.value.next == R.NextMissing(c.rcv)
            && FullAck(message.value.ack, message.value.next) in d.net)
  {
    hide R.SendAck, R.NextMissing, R.Admits, Inv, RoomInv, Leads, Grows, Released;
    AckShape(c);
    d := LiveStep(w, c, SendAck(false, false));
  }

  lemma NothingToRemove(n1: nat, n2: nat)
    requires n1 <= SEQ_MAX && n2 <= SEQ_MAX
    ensures RemoveAll(map[], n1, n2) == map[]
  {
    RemoveAllMeaning(map[], n1, n2);
    assert forall x :: !Has(map[], x);
    PeekMeaning(RemoveAll(map[], n1, n2), 0);
  }

  lemma ObeyEmpties(isn: nat, history: seq<Block>, s: S.Snd, next: nat)
    requires BufferInv(isn, history, s) && s.lossList == map[] && isn <= next <= SEQ_MAX && next <= Top(s)
    requires s.lastAckReceived <= next
    ensures
      var s' := S.OnFullAck(s, next);
      s'.lossList == map[] && s'.lastDataAckProcessed == next && s'.lastAckReceived == next
  {
    FullAckKeepsBuffer(isn, history, s, next);
    NothingToRemove(s.lastDataAckProcessed, Add(next, -1));
    DiffSign(next, s.lastDataAckProcessed);
    hide RemoveAll, SB.AckData;
  }

  lemma ObeyStep(w: int, c: Sys) returns (d: Sys)
    requires Live(c) && c.pending.None? && c.snd.lossList == map[] && c.obeying == Some(R.NextMissing(c.rcv))
    ensures d == Apply(c, Obey) && Idle(d) && Leads(w, c, d) && SameStream(c, d) && Grows(c, d) && d.rcv == c.rcv
    ensures d.snd.lastDataAckProcessed == d.snd.lastAckReceived == R.NextMissing(c.rcv) && d.received == c.received
  {
    hide R.NextMissing, HistoryInv, BufferInv, LossInv, PendingInv, SplitInv, AckInv, StreamInv, WindowInv, CrossInv;
    hide NetInv, RoomInv, S.OnFullAck, Leads, Grows, Released;
    NextIsFirst(c);
    ObeyEmpties(c.isn, c.history, c.snd, R.NextMissing(c.rcv));
    hide Inv;
    d := LiveStep(w, c, Obey);
  }

  /** The sender has released everything below the first missing number. */
  ghost predicate Obeyed(c: Sys) {
    Idle(c) && Acknowledged(c) && c.snd.lastDataAckProcessed == c.snd.lastAckReceived == R.NextMissing(c.rcv)
  }

  lemma AckedIsObeyed(w: int, c: Sys)
    requires Idle(c)
    ensures
      var d := Acked(c);
      && Obeyed(d) && Leads(w, c, d) && SameStream(c, d) && d.received == c.received
      && R.NextMissing(d.rcv) == R.NextMissing(c.rcv)
  {
    hide R.SendAck, R.NextMissing, R.Admits, Inv, RoomInv, Leads, Grows, S.OnFullAck;
    var n := R.NextMissing(c.rcv);
    NextIsFirst(c);
    Bounds(c);
    var c1 := AckStep(w, c);
    var message := R.SendAck(c.rcv, false, false).1;
    if message.Some? {
      var c2 := LiveStep(w, c1, ToSender(FullAck(message.value.ack, n), false));
      var c3 := ObeyStep(w, c2);
      LeadsOn(w, c1, c2, c3);
      LeadsOn(w, c, c1, c3);
    }
  }

  lemma Bounds(c: Sys)
    requires Live(c)
    ensures c.snd.lastDataAckProcessed <= c.snd.lastAckReceived
  {
  }

  // ---------------------------------------------------------------- one more packet

  /** With everything acknowledged, any window lets the next batch go out. */
  lemma FetchSome(isn: nat, history: seq<Block>, s: S.Snd, w: int)
    requires BufferInv(isn, history, s) && s.lastAckReceived == Top(s) < isn + |history| && w >= 0 && Top(s) <= SEQ_MAX
    ensures
      var s' := S.FetchNew(s, w).1;
      Top(s') > Top(s) && s'.lossList == s.lossList
  {
    DiffSign(s.currSnd, s.lastAckReceived);
    FetchKeepsBuffer(isn, history, s, w);
  }

  lemma SenderExp(s: S.Snd)
    ensures S.OnExp(s) == s.(lossList := S.OnExp(s).lossList)
  {
  }

  /** Whatever has been sent, the first missing packet is on its way after this. */
  lemma ResupplySends(w: int, c: Sys)
    requires Obeyed(c) && w >= 0
    ensures
      var d := Resupplied(w, c);
      && Quiet(d) && Leads(w, c, d) && SameStream(c, d) && d.rcv == c.rcv && d.received == c.received
      && (R.NextMissing(c.rcv) < c.isn + |c.history| ==>
            DataMsg(PacketOf(c.isn, c.history, R.NextMissing(c.rcv))) in d.net)
  {
    hide R.NextMissing, R.Admits, Inv, RoomInv, Leads, Has, PacketOf, Grows, Released, S.OnExp, S.FetchNew, Swept;
    var n := R.NextMissing(c.rcv);
    FetchReaches(w, c);
    NextIsFirst(c);
    var c1 := LiveStep(w, c, FetchNew(w));
    var c2 := LiveStep(w, c1, Exp(false));
    SenderExp(c1.snd);
    SweptIsIdle(w, c2);
    LeadsOn(w, c, c1, c2);
    LeadsOn(w, c, c2, Swept(c2));
    if n < c.isn + |c.history| {
      TopBelow(c1);
      ExpCovers(c1, n);
    }
  }

  lemma FetchReaches(w: int, c: Sys)
    requires Obeyed(c) && w >= 0
    ensures Enabled(c, FetchNew(w))
    ensures
      var s' := S.FetchNew(c.snd, w).1;
      && s'.lossList == map[]
      && (R.NextMissing(c.rcv) < c.isn + |c.history| ==> R.NextMissing(c.rcv) < Top(s'))
  {
    hide R.NextMissing, R.Admits, RoomInv, Released;
    NextIsFirst(c);
    FetchKeepsBuffer(c.isn, c.history, c.snd, w);
    if c.snd.lastAckReceived == Top(c.snd) < c.isn + |c.history| {
      FetchSome(c.isn, c.history, c.snd, w);
    }
    hide S.FetchNew;
  }

  lemma DeliveredArrives(w: int, c: Sys)
    requires Quiet(c) && R.Admits(c.rcv, R.NextMissing(c.rcv))
    ensures
      var d := Delivered(c);
      && Quiet(d) && Leads(w, c, d) && SameStream(c, d)
      && c.received <= d.received <= c.received + {R.NextMissing(c.rcv)}
      && (DataMsg(PacketOf(c.isn, c.history, R.NextMissing(c.rcv))) in c.net ==> R.NextMissing(c.rcv) in d.received)
  {
    hide R.NextMissing, R.Admits, RoomInv, Leads, Released, R.OnData, Inv;
    LeadsSame(w, c);
    var e := ToReceiver(DataMsg(PacketOf(c.isn, c.history, R.NextMissing(c.rcv))));
    if Enabled(c, e) {
      var d := LiveStep(w, c, e);
    }
  }

  // ---------------------------------------------------------------- reading

  lemma {:induction false} FitsAll(packets: map<nat, Packet>, keys: seq<nat>, room: nat)
    requires (forall i :: 0 <= i < |keys| ==> keys[i] in packets) && |RB.Payload(packets, keys)| <= room
    ensures RB.FitCount(packets, keys, room) == |keys|
  {
    if keys != [] {
      FitsAll(packets, keys[1..], room - |packets[keys[0]].data|);
    }
  }

  /** Reading with enough room takes everything acknowledged. */
  lemma RecvAll(c: Sys)
    requires AckInv(c.isn, c.received, c.rcv) && StreamInv(c.isn, c.history, c.received, c.rcv.buf, c.delivered)
    requires c.rcv.status == S.Connected
    ensures R.Recv(c.rcv, Enough(c.rcv.buf)).1.buf.nextToRead == c.rcv.buf.nextToAck
  {
    var b := c.rcv.buf;
    var keys := RB.Readable(b);
    ContiguousKeys(b.packets.Keys, b.nextToRead, b.nextToAck);
    assert |keys| == b.nextToAck - b.nextToRead;
    FitsAll(b.packets, keys, Enough(b));
    assert keys[..|keys|] == keys;
    TakenKeys(b, keys);
  }

  lemma RecvKeepsNext(r: R.Rcv, room: nat)
    ensures R.NextMissing(R.Recv(r, room).1) == R.NextMissing(r)
  {
    hide PeekAfter;
  }

  lemma ReadOutReads(w: int, c: Sys)
    requires Quiet(c)
    ensures
      var d := ReadOut(c);
      && Quiet(d) && Leads(w, c, d) && SameStream(c, d) && d.received == c.received
      && d.rcv.buf.nextToRead == R.NextMissing(d.rcv) == R.NextMissing(c.rcv)
  {
    hide R.NextMissing, R.Admits, RoomInv, Leads, Released, R.SendAck, R.Recv, Enough, Grows;
    hide HistoryInv, BufferInv, LossInv, PendingInv, ObeyInv, SplitInv, AckInv, StreamInv, WindowInv, CrossInv, NetInv;
    var c1 := AckStep(w, c);
    RecvAll(c1);
    RecvKeepsNext(c1.rcv, Enough(c1.rcv.buf));
    hide Inv;
    var d := LiveStep(w, c1, Recv(Enough(c1.rcv.buf)));
    LeadsOn(w, c, c1, d);
  }

  // ---------------------------------------------------------------- the round

  lemma FirstHalf(w: int, c: Sys)
    requires Live(c) && !Harmful(c)
    ensures
      var d := Acked(Swept(Settled(c)));
      && Obeyed(d) && Leads(w, c, d) && SameStream(c, d) && d.received == c.received
      && R.NextMissing(d.rcv) == R.NextMissing(c.rcv)
  {
    hide Live, Settled, Swept, Acked, Leads, R.NextMissing, Acknowledged, Harmful, Has;
    SettledIsQuiet(w, c);
    var c1 := Settled(c);
    SweptIsIdle(w, c1);
    var c2 := Swept(c1);
    AckedIsObeyed(w, c2);
    LeadsOn(w, c, c1, c2);
    LeadsOn(w, c, c2, Acked(c2));
  }

  lemma SecondHalf(w: int, c: Sys)
    requires Obeyed(c) && w >= 0
    ensures
      var d := ReadOut(Delivered(Resupplied(w, c)));
      && Quiet(d) && Leads(w, c, d) && SameStream(c, d)
      && c.received <= d.received <= c.received + {R.NextMissing(c.rcv)}
      && d.rcv.buf.nextToRead == R.NextMissing(d.rcv)
      && (R.NextMissing(c.rcv) < c.isn + |c.history| ==> R.NextMissing(c.rcv) in d.received)
  {
    hide Live, Resupplied, Delivered, ReadOut, Leads, R.NextMissing, R.Admits, PacketOf;
    ResupplySends(w, c);
    var c1 := Resupplied(w, c);
    DeliveredArrives(w, c1);
    var c2 := Delivered(c1);
    ReadOutReads(w, c2);
    LeadsOn(w, c, c1, c2);
    LeadsOn(w, c, c2, ReadOut(c2));
  }

  /**
   After a round everything below the first missing number has been read, and that number, the
   only one received, has moved up unless every accepted block had already been received.
   */
  lemma RoundGains(w: int, c: Sys)
    requires Live(c) && !Harmful(c) && w >= 0
    ensures
      var d := Round(w, c);
      && Quiet(d) && Leads(w, c, d) && SameStream(c, d)
      && d.rcv.buf.nextToRead == R.NextMissing(d.rcv) <= c.isn + |c.history|
      && R.NextMissing(c.rcv) <= R.NextMissing(d.rcv) && d.received <= c.received + {R.NextMissing(c.rcv)}
      && (R.NextMissing(c.rcv) < c.isn + |c.history| ==> R.NextMissing(c.rcv) < R.NextMissing(d.rcv))
  {
    hide Inv, Settled, Swept, Acked, Resupplied, Delivered, ReadOut, Leads, R.NextMissing, R.Admits, Harmful, RoomInv;
    FirstHalf(w, c);
    var c1 := Acked(Swept(Settled(c)));
    SecondHalf(w, c1);
    var d := Round(w, c);
    LeadsOn(w, c, c1, d);
    NextIsFirst(c);
    NextIsFirst(d);
    TopBelow(d);
  }

  lemma TopBelow(c: Sys)
    requires Live(c)
    ensures Top(c.snd) <= c.isn + |c.history|
  {
    TopIsBounded(c);
  }
}
