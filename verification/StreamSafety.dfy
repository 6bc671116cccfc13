/** What the invariant says of every run: the promises a user of the stream relies on. */
module StreamSafety {
  import opened SeqNumber
  import opened OrderedKeys
  import opened Packets
  import opened LossListModel
  import opened Connection
  import opened Invariant
  import S = SenderModel
  import R = ReceiverModel
  import SB = SndBufferModel
  import RB = RcvBufferModel
  import W = AckWindowModel

  // ---------------------------------------------------------------- an initial number of 0

  /**
   With an initial number of 0 the receiver's highest number starts at the maximum, which no
   packet exceeds: nothing is ever acknowledged or read.
   */
  ghost predicate Stalled(c: Sys) {
    && c.isn == 0 && c.snd.buf.payloadSize > 0 && c.obeying.None?
    && c.snd.lastDataAckProcessed == 0 && c.snd.lastAckReceived == 0 && c.snd.currSnd <= SEQ_MAX
    && WellFormed(c.snd.lossList) && (c.pending.Some? ==> c.pending.value.seqNumber <= SEQ_MAX)
    && (forall m :: m in c.net ==> m.DataMsg? && m.packet.seqNumber <= SEQ_MAX)
    && c.rcv.currRcv == SEQ_MAX && c.rcv.lossList == map[] && c.rcv.lastAck2 == 0
    && c.rcv.buf.nextToRead == 0 && c.rcv.buf.nextToAck == 0 && c.delivered == []
    && (forall i :: 0 <= i < |c.messages| ==> c.messages[i] != [])
    && (c.messages == [] <==> c.history == [])
  }

  lemma StalledSend(c: Sys, data: seq<Byte>)
    requires Stalled(c)
    ensures Stalled(AfterSend(c, data))
  {
    hide SB.Segment, WellFormed;
    SB.SegmentMeaning(data, c.snd.buf.payloadSize, c.snd.buf.nextMsg, false);
  }

  lemma StalledPick(c: Sys)
    requires Stalled(c) && Enabled(c, PickResend)
    ensures Stalled(Apply(c, PickResend))
  {
    hide Diff, PopAfter, PeekAfter, WellFormed;
    PeekMeaning(c.snd.lossList, 0);
    PopMeaning(c.snd.lossList, 0);
  }

  lemma StalledSender(c: Sys, e: Event)
    requires Stalled(c) && Enabled(c, e) && (e.ReadResend? || e.FetchNew? || e.Exp?)
    ensures Stalled(Apply(c, e))
  {
    hide Insert, Diff, WellFormed;
    if e.Exp? {
      InsertMeaning(c.snd.lossList, 0, c.snd.currSnd);
    }
  }

  lemma StalledReceiver(c: Sys, e: Event)
    requires Stalled(c) && Enabled(c, e) && (e.ToReceiver? || e.SendAck? || e.Recv?)
    ensures Stalled(Apply(c, e))
  {
    match e
    case ToReceiver(m) =>
      DiffSign(m.packet.seqNumber, SEQ_MAX);
    case SendAck(_, _) =>
      PeekMeaning(c.rcv.lossList, 0);
    case Recv(_) =>
  }

  lemma StalledStep(c: Sys, e: Event)
    requires Stalled(c) && Enabled(c, e)
    ensures Stalled(Apply(c, e))
  {
    if e.Send? {
      hide Stalled, AfterSend;
      StalledSend(c, e.data);
    } else if e.PickResend? {
      hide Apply, Stalled;
      StalledPick(c);
    } else if e.ReadResend? || e.FetchNew? || e.Exp? {
      hide Apply, Stalled;
      StalledSender(c, e);
    } else if e.ToReceiver? || e.SendAck? || e.Recv? {
      hide Apply, Stalled;
      StalledReceiver(c, e);
    }
  }

  lemma {:induction false} StalledRun(c: Sys, es: seq<Event>)
    requires Stalled(c) && Legal(c, es)
    ensures Stalled(Run(c, es))
    decreases |es|
  {
    if es != [] {
      hide Apply, Stalled;
      StalledStep(c, es[0]);
      StalledRun(Apply(c, es[0]), es[1..]);
    }
  }

  // ---------------------------------------------------------------- the stream

  /**
   In every run, over a network that drops, duplicates and reorders, what the application has
   read is a whole number of blocks from the front of the accepted messages: each byte once
   and in order. The block numbered with the maximum, and everything after it, is never read;
   with an initial number of 0 nothing is.
   */
  lemma StreamIsPrefix(k: Config, es: seq<Event>)
    requires Sensible(k) && k.sndMaxSize <= SEQ_MOD / 2
    requires Legal(Start(k), es) && AllUndisturbed(Start(k), es)
    ensures
      var c := Run(Start(k), es);
      && c.delivered <= Flatten(c.messages)
      && (k.isn == 0 ==> c.delivered == [])
      && (k.isn > 0 ==>
            && SB.Reassemble(c.history, []) == c.messages
            && exists n :: 0 <= n <= |c.history| && k.isn + n <= SEQ_MAX && c.delivered == Bytes(c.history[..n]))
  {
    var c := Run(Start(k), es);
    if k.isn == 0 {
      StalledRun(Start(k), es);
    } else {
      StartInv(k);
      RunKeepsInv(Start(k), es);
      RunKeepsIsn(Start(k), es);
      DeliveredIsPrefix(c);
    }
  }

  lemma {:induction false} RunKeepsIsn(c: Sys, es: seq<Event>)
    requires Legal(c, es)
    ensures Run(c, es).isn == c.isn
    decreases |es|
  {
    if es != [] {
      RunKeepsIsn(Apply(c, es[0]), es[1..]);
    }
  }

  lemma DeliveredIsPrefix(c: Sys)
    requires HistoryInv(c.messages, c.history, c.snd.buf) && AckInv(c.isn, c.received, c.rcv)
    requires StreamInv(c.isn, c.history, c.received, c.rcv.buf, c.delivered)
    ensures c.delivered <= Flatten(c.messages)
    ensures SB.Reassemble(c.history, []) == c.messages
    ensures
      var n := c.rcv.buf.nextToRead - c.isn;
      0 <= n <= |c.history| && c.isn + n <= SEQ_MAX && c.delivered == Bytes(c.history[..n])
  {
    hide SB.SegmentAll, SB.Reassemble, Bytes, Flatten;
    var n := c.rcv.buf.nextToRead - c.isn;
    SB.ReassembleAll(c.messages, c.snd.buf.payloadSize, 0);
    BytesAppend(c.history[..n], c.history[n..]);
    assert c.history == c.history[..n] + c.history[n..];
  }

  // ---------------------------------------------------------------- the joint order

  /** `f` is the first number the receiver has not received. */
  ghost predicate FirstMissing(c: Sys, f: nat) {
    c.isn <= f && f !in c.received && Below(c.received, c.isn, f)
  }

  /** The order all counters of the two ends keep, whatever the network does. */
  lemma CountersAreOrdered(c: Sys, f: nat)
    requires Inv(c) && FirstMissing(c, f)
    ensures c.isn <= c.rcv.lastAck2 <= c.rcv.buf.nextToAck
    ensures c.isn <= c.snd.lastDataAckProcessed <= c.snd.lastAckReceived <= f
    ensures c.snd.lastDataAckProcessed <= c.rcv.buf.nextToAck <= f
    ensures c.rcv.buf.nextToRead <= c.rcv.buf.nextToAck
    ensures f <= c.rcv.currRcv + 1 <= Top(c.snd)
    ensures Top(c.snd) == c.snd.lastDataAckProcessed + c.snd.buf.position
      <= c.snd.lastDataAckProcessed + |c.snd.buf.blocks| == c.isn + |c.history|
    ensures Top(c.snd) <= SEQ_MOD ==> c.snd.currSnd + 1 == Top(c.snd)
    ensures 0 <= c.snd.buf.position
  {
    assert c.rcv.currRcv + 1 !in c.received;
    assert forall x :: c.isn <= x < f ==> x in c.received;
    assert c.snd.lastAckReceived > f ==> f in c.received;
  }

  /**
   `send_ack` always chooses the first missing number as long as there is one in the number
   range; it never lies below the last ACK sent, and everything between the read position and
   the acknowledged number is in the buffer.
   */
  lemma AckIsFirstMissing(c: Sys)
    requires Inv(c) && !(c.rcv.currRcv == SEQ_MAX && c.rcv.lossList == map[])
    ensures FirstMissing(c, R.NextMissing(c.rcv))
    ensures Diff(R.NextMissing(c.rcv), c.rcv.lastSentAck) >= 0
    ensures c.rcv.lastSentAck <= SEQ_MAX && R.NextMissing(c.rcv) <= SEQ_MAX
    ensures forall x :: c.rcv.buf.nextToRead <= x < c.rcv.buf.nextToAck ==> x in c.rcv.buf.packets
  {
    NextMissingMeaning(c.isn, c.received, c.rcv);
    PeekMeaning(c.rcv.lossList, Add(c.rcv.currRcv, 1));
    NextIsNotZero(c.isn, c.rcv);
    var n := R.NextMissing(c.rcv);
    CountersAreOrdered(c, n);
    DiffSign(n, c.rcv.lastSentAck);
  }

  /** Every ACK, light or full, carries the first missing number. */
  lemma AckCarriesFirstMissing(c: Sys, light: bool, recent: bool)
    requires Inv(c) && !(c.rcv.currRcv == SEQ_MAX && c.rcv.lossList == map[])
    requires R.SendAck(c.rcv, light, recent).1.Some?
    ensures
      var message := R.SendAck(c.rcv, light, recent).1.value;
      && message.Light? == light && FirstMissing(c, message.next)
      && (!light ==> message.next == R.SendAck(c.rcv, light, recent).0.lastSentAck)
  {
    hide Inv, R.NextMissing, FirstMissing, W.Store, RB.AckData, Shift;
    AckIsFirstMissing(c);
    DiffSign(R.NextMissing(c.rcv), c.rcv.lastSentAck);
    hide Diff;
  }

  lemma NextIsNotZero(isn: nat, r: R.Rcv)
    requires WellFormed(r.lossList) && 1 <= isn && r.currRcv <= SEQ_MAX
    requires forall x :: Has(r.lossList, x) ==> isn <= x
    requires !(r.currRcv == SEQ_MAX && r.lossList == map[])
    ensures R.NextMissing(r) != 0
  {
    PeekMeaning(r.lossList, Add(r.currRcv, 1));
  }

  /** The first missing number never decreases along a run. */
  lemma FirstMissingGrows(c: Sys, es: seq<Event>, f: nat, g: nat)
    requires Inv(c) && Legal(c, es) && AllUndisturbed(c, es)
    requires FirstMissing(c, f) && FirstMissing(Run(c, es), g)
    ensures f <= g
  {
    hide Inv;
    RunKeepsInv(c, es);
    assert g < f ==> g in c.received;
  }

  // ---------------------------------------------------------------- honest peers

  /** No block is released before the receiver has it. */
  lemma ReleasedWasReceived(c: Sys, x: nat)
    requires Inv(c) && c.isn <= x < c.snd.lastDataAckProcessed
    ensures x in c.received
  {
    assert Below(c.received, c.isn, c.snd.lastAckReceived);
  }

  /** As long as no number has wrapped, nothing the peer sends breaks the sender. */
  lemma PeersNeverBreak(c: Sys, e: Event)
    requires Inv(c) && Top(c.snd) <= SEQ_MOD && Enabled(c, e) && (e.ToSender? || e.Obey?)
    ensures Apply(c, e).snd.status == c.snd.status
  {
    hide S.OnFullAck, S.OnNak, HistoryInv, BufferInv, LossInv, PendingInv, SplitInv, AckInv, StreamInv, WindowInv;
    if e.Obey? {
      FullAckParts(c, c.obeying.value);
    } else {
      assert GoodMsg(c, e.m);
      if e.m.Nak? { NakStatus(c, e.m.info); }
    }
  }

  lemma NakStatus(c: Sys, info: seq<nat>)
    requires BufferInv(c.isn, c.history, c.snd) && LossInv(c.isn, c.snd) && PendingInv(c.isn, c.snd, c.pending)
    requires SplitInv(c.isn, c.received, c.rcv)
    requires CrossInv(c.isn, c.received, c.snd, c.rcv) && GapNak(c.isn, c.rcv.currRcv, info)
    ensures Top(c.snd) <= SEQ_MOD ==> S.OnNak(c.snd, info).status == c.snd.status
    ensures S.OnNak(c.snd, info).lastDataAckProcessed == c.snd.lastDataAckProcessed
  {
    hide S.OnNak, BufferInv, LossInv, PendingInv;
    NakParts(c, info);
  }

  lemma ResendNeverMisses(c: Sys)
    requires Inv(c) && Top(c.snd) <= SEQ_MOD && S.PickResend(c.snd).0.Some?
    ensures
      var (pick, s') := S.PickResend(c.snd);
      && 0 <= pick.value.offset < c.snd.buf.position
      && S.ReadResend(s', pick.value).Some?
      && S.ReadResend(s', pick.value).value.seqNumber == pick.value.seqNumber
      && Genuine(c.isn, c.history, Top(c.snd), S.ReadResend(s', pick.value).value)
  {
    PickHits(c.isn, c.history, c.snd);
    hide Inv, S.PickResend, S.ReadResend, Genuine;
  }

  lemma PickHits(isn: nat, history: seq<Block>, s: S.Snd)
    requires BufferInv(isn, history, s) && LossInv(isn, s) && Top(s) <= SEQ_MOD && S.PickResend(s).0.Some?
    ensures
      var (pick, s') := S.PickResend(s);
      && 0 <= pick.value.offset < s.buf.position
      && S.ReadResend(s', pick.value).Some?
      && S.ReadResend(s', pick.value).value.seqNumber == pick.value.seqNumber
      && Genuine(isn, history, Top(s), S.ReadResend(s', pick.value).value)
  {
    PeekMeaning(s.lossList, s.lastDataAckProcessed);
    var x := PeekAfter(s.lossList, s.lastDataAckProcessed).value;
    assert Scheduled(isn, s, x);
    DiffSign(x, s.lastDataAckProcessed);
    assert PopAfter(s.lossList, s.lastDataAckProcessed).0 == Some(x);
    hide PopAfter, PeekAfter;
  }

  /**
   A full ACK releases exactly what it acknowledges if and only if it advances by at most half
   the number range: further ahead the subtraction loses the distance. This is why the send
   buffer must not exceed half the range.
   */
  lemma ReleaseIsExactIff(s: S.Snd, next: nat)
    requires s.lastDataAckProcessed < next <= SEQ_MAX && next - s.lastDataAckProcessed <= |s.buf.blocks|
    ensures |s.buf.blocks| - |S.OnFullAck(s, next).buf.blocks| == next - s.lastDataAckProcessed
      <==> next - s.lastDataAckProcessed <= SEQ_MOD / 2
  {
    DiffSign(next, s.lastDataAckProcessed);
    hide RemoveAll;
  }

  // ---------------------------------------------------------------- retransmission

  /** The picked retransmission is still where it was when it was picked. */
  ghost predicate InPlace(s: S.Snd, pending: Option<S.Resend>) {
    pending.Some? ==>
      && s.lastDataAckProcessed <= pending.value.seqNumber
      && pending.value.offset == pending.value.seqNumber - s.lastDataAckProcessed
  }

  /** Every data packet in flight carries the block its number stands for. */
  ghost predicate Faithful(c: Sys) {
    && InPlace(c.snd, c.pending)
    && (forall m :: m in c.net && m.DataMsg? ==> Genuine(c.isn, c.history, Top(c.snd), m.packet))
  }

  /** Runs in which no number wraps. */
  ghost predicate Unwrapped(c: Sys) {
    Top(c.snd) <= SEQ_MOD
  }

  lemma FaithfulKept(c: Sys, d: Sys)
    requires Faithful(c) && Grows(c, d)
    requires InPlace(d.snd, d.pending)
    requires forall m :: m in d.net && m.DataMsg? && m !in c.net ==> Genuine(d.isn, d.history, Top(d.snd), m.packet)
    ensures Faithful(d)
  {
  }

  lemma PickIsScheduled(c: Sys)
    requires BufferInv(c.isn, c.history, c.snd) && LossInv(c.isn, c.snd) && Top(c.snd) <= SEQ_MOD
    ensures InPlace(S.PickResend(c.snd).1, S.PickResend(c.snd).0)
  {
    PickIsFresh(c);
    PeekMeaning(c.snd.lossList, c.snd.lastDataAckProcessed);
    hide PopAfter, PeekAfter;
  }

  /** With the sender's handlers uninterrupted and before any wrap, every transmission is faithful. */
  lemma StepKeepsFaithful(c: Sys, e: Event)
    requires Inv(c) && Faithful(c) && Enabled(c, e) && Sequential(c, e) && Unwrapped(Apply(c, e))
    ensures Faithful(Apply(c, e)) && Inv(Apply(c, e)) && Grows(c, Apply(c, e))
  {
    hide S.PickResend, S.ReadResend, S.FetchNew, S.OnFullAck, S.OnNak, S.OnExp, S.Send, R.OnData, R.SendAck, R.Recv;
    hide HistoryInv, BufferInv, LossInv, PendingInv, SplitInv, AckInv, StreamInv, WindowInv, CrossInv, NetInv, Genuine;
    var d := Apply(c, e);
    StepKeepsInv(c, e);
    if e.PickResend? {
      PickIsScheduled(c);
    } else if e.ReadResend? {
      if S.ReadResend(c.snd, c.pending.value).Some? {
        ReadIsPicked(c);
      }
    } else if e.FetchNew? {
      FetchParts(c, e.window);
    }
    hide R.Admits, R.OnAck2, R.NextMissing;
    FaithfulKept(c, d);
  }

  lemma ReadIsPicked(c: Sys)
    requires c.pending.Some? && PendingInv(c.isn, c.snd, c.pending) && BufferInv(c.isn, c.history, c.snd)
    requires InPlace(c.snd, c.pending) && S.ReadResend(c.snd, c.pending.value).Some?
    ensures Genuine(c.isn, c.history, Top(c.snd), S.ReadResend(c.snd, c.pending.value).value)
  {
  }

  /** The states of a run before any number wraps, with uninterrupted handlers. */
  ghost predicate Plain(c: Sys, es: seq<Event>)
    requires Legal(c, es)
    decreases |es|
  {
    es != [] ==> Sequential(c, es[0]) && Unwrapped(Apply(c, es[0])) && Plain(Apply(c, es[0]), es[1..])
  }

  /**
   A number always stands for the same packet: however many ACKs shift the send buffer between
   two transmissions, payload, message number and position are the same.
   */
  lemma {:induction false} SameNumberSamePacket(c: Sys, es: seq<Event>, p: Packet, q: Packet)
    requires Inv(c) && Faithful(c) && Legal(c, es) && Plain(c, es)
    requires DataMsg(p) in c.net && DataMsg(q) in Run(c, es).net && p.seqNumber == q.seqNumber
    ensures p == q
  {
    FaithfulRun(c, es);
    hide Inv, Plain, Legal, Run;
    SameGenuine(c, Run(c, es), p, q);
  }

  lemma SameGenuine(c: Sys, d: Sys, p: Packet, q: Packet)
    requires Faithful(c) && Faithful(d) && Grows(c, d)
    requires DataMsg(p) in c.net && DataMsg(q) in d.net && p.seqNumber == q.seqNumber
    ensures p == q
  {
    assert Genuine(c.isn, c.history, Top(c.snd), p) && Genuine(d.isn, d.history, Top(d.snd), q);
  }

  lemma {:induction false} FaithfulRun(c: Sys, es: seq<Event>)
    requires Inv(c) && Faithful(c) && Legal(c, es) && Plain(c, es)
    ensures Inv(Run(c, es)) && Faithful(Run(c, es)) && Grows(c, Run(c, es))
    decreases |es|
  {
    hide Inv, Faithful;
    if es != [] {
      StepKeepsFaithful(c, es[0]);
      FaithfulRun(Apply(c, es[0]), es[1..]);
    }
  }

  // ---------------------------------------------------------------- ACK2

  /** The full ACKs sent so far, as stored in the window: numbered 1, 2, 3, ... */
  ghost function AckLog(acks: seq<nat>): seq<W.Entry> {
    seq(|acks|, i requires 0 <= i < |acks| => W.Entry(i + 1, acks[i]))
  }

  /** The number up to which the sender has released blocks, or is about to. */
  ghost function Released(c: Sys): nat {
    if c.obeying.Some? && c.obeying.value > c.snd.lastDataAckProcessed then c.obeying.value
    else c.snd.lastDataAckProcessed
  }

  /** Until ACK numbers repeat, each names one ACK, and a confirmed ACK is at least being obeyed. */
  ghost predicate Ack2Inv(c: Sys) {
    && c.rcv.ackSeq == |c.acks| <= ACK_MAX
    && c.rcv.window == W.StoreAll(R.ACK_WINDOW_SIZE, AckLog(c.acks))
    && c.rcv.lastAck2 <= Released(c)
    && (forall m :: m in c.net && m.FullAck? ==> 1 <= m.ack <= |c.acks| && c.acks[m.ack - 1] == m.next)
    && (forall m :: m in c.net && m.Ack2? ==>
          1 <= m.ack <= |c.acks| && c.acks[m.ack - 1] <= Released(c))
  }

  lemma StartAck2(k: Config)
    requires Sensible(k)
    ensures Ack2Inv(Start(k))
  {
    assert AckLog([]) == [];
  }

  /** The window answers an ACK number with the number that ACK carried. */
  lemma WindowAnswers(acks: seq<nat>, k: nat, n: nat)
    requires W.Get(W.StoreAll(R.ACK_WINDOW_SIZE, AckLog(acks)), k) == Some(n)
    ensures 1 <= k <= |acks| && acks[k - 1] == n
  {
    var log := AckLog(acks);
    assert W.Distinct(log);
    W.WindowMeaning(R.ACK_WINDOW_SIZE, log);
    hide W.StoreAll, W.Get, W.Distinct;
    var recent := W.Recent(R.ACK_WINDOW_SIZE, log);
    assert W.Entry(k, n) in recent;
    var i :| 0 <= i < |recent| && recent[i] == W.Entry(k, n);
    assert recent[i] == log[|acks| - |recent| + i];
  }

  lemma StoreExtendsLog(acks: seq<nat>, n: nat)
    ensures W.Store(W.StoreAll(R.ACK_WINDOW_SIZE, AckLog(acks)), n, |acks| + 1)
      == W.StoreAll(R.ACK_WINDOW_SIZE, AckLog(acks + [n]))
  {
    var log := AckLog(acks + [n]);
    assert log[..|acks|] == AckLog(acks);
  }

  lemma Ack2Send(c: Sys, light: bool, recent: bool)
    requires c.rcv.window.size > 0 && Ack2Inv(c) && |AfterSendAck(c, light, recent).acks| <= ACK_MAX
    ensures Ack2Inv(AfterSendAck(c, light, recent))
  {
    hide R.NextMissing, W.StoreAll, W.Store, AckLog;
    var (r', message) := R.SendAck(c.rcv, light, recent);
    StoreExtendsLog(c.acks, r'.lastSentAck);
  }

  lemma Ack2Confirm(c: Sys, ack: nat)
    requires Ack2Inv(c) && Ack2(ack) in c.net
    ensures Ack2Inv(c.(rcv := R.OnAck2(c.rcv, ack)))
  {
    var stored := W.Get(c.rcv.window, ack);
    if stored.Some? {
      WindowAnswers(c.acks, ack, stored.value);
    }
  }

  /** A confirmation of one of the last ACKs in the window is recorded. */
  lemma ConfirmationIsRecorded(c: Sys, ack: nat)
    requires Ack2Inv(c) && Inv(c)
    requires 1 <= ack <= |c.acks| && |c.acks| - ack < R.ACK_WINDOW_SIZE
    ensures
      var n := c.acks[ack - 1];
      R.OnAck2(c.rcv, ack).lastAck2 == if n > c.rcv.lastAck2 then n else c.rcv.lastAck2
  {
    hide W.StoreAll, W.Get, HistoryInv, BufferInv, LossInv, PendingInv, SplitInv, StreamInv, CrossInv, NetInv;
    var n := c.acks[ack - 1];
    WindowKnows(c.acks, ack);
    StoredInRange(c, ack, n);
    DiffSign(n, c.rcv.lastAck2);
    hide Inv, AckLog, Diff;
  }

  lemma WindowKnows(acks: seq<nat>, ack: nat)
    requires 1 <= ack <= |acks| && |acks| - ack < R.ACK_WINDOW_SIZE
    ensures W.Get(W.StoreAll(R.ACK_WINDOW_SIZE, AckLog(acks)), ack) == Some(acks[ack - 1])
  {
    hide W.StoreAll, W.Get;
    var log := AckLog(acks);
    assert W.Distinct(log);
    W.WindowMeaning(R.ACK_WINDOW_SIZE, log);
    var recent := W.Recent(R.ACK_WINDOW_SIZE, log);
    assert recent[ack - 1 - (|log| - |recent|)] == log[ack - 1] == W.Entry(ack, acks[ack - 1]);
  }

  lemma StoredInRange(c: Sys, ack: nat, n: nat)
    requires WindowInv(c.isn, c.rcv) && AckInv(c.isn, c.received, c.rcv)
    requires W.Get(c.rcv.window, ack) == Some(n)
    ensures n <= SEQ_MAX && c.rcv.lastAck2 <= SEQ_MAX
  {
  }

  lemma ReleasedGrows(c: Sys, e: Event)
    requires Inv(c) && Enabled(c, e)
    ensures Released(c) <= Released(Apply(c, e))
    ensures e.ToSender? && e.m.FullAck? ==> e.m.next <= Released(Apply(c, e))
  {
    hide HistoryInv, BufferInv, LossInv, PendingInv, SplitInv, StreamInv, WindowInv, Genuine;
    hide S.PickResend, S.ReadResend, S.FetchNew, S.OnFullAck, S.OnNak, S.OnExp, S.Send, R.OnData, R.SendAck, R.Recv;
    if e.Obey? {
      ObeyReleases(c);
    } else if e.ToSender? && e.m.Nak? {
      assert GoodMsg(c, e.m);
      NakStatus(c, e.m.info);
    } else {
      SenderKeepsReleased(c.snd, e);
    }
  }

  lemma SenderKeepsReleased(s: S.Snd, e: Event)
    ensures S.PickResend(s).1.lastDataAckProcessed == S.OnExp(s).lastDataAckProcessed == s.lastDataAckProcessed
    ensures e.FetchNew? && 0 <= s.buf.position <= |s.buf.blocks| ==>
      S.FetchNew(s, e.window).1.lastDataAckProcessed == s.lastDataAckProcessed
    ensures e.Send? && s.buf.payloadSize > 0 ==> S.Send(s, e.data).1.lastDataAckProcessed == s.lastDataAckProcessed
  {
    hide SB.AddMessage;
  }

  lemma ObeyReleases(c: Sys)
    requires Inv(c) && c.obeying.Some?
    ensures S.OnFullAck(c.snd, c.obeying.value).lastDataAckProcessed == Released(c)
  {
    hide HistoryInv, LossInv, PendingInv, SplitInv, StreamInv, WindowInv, NetInv;
    hide RemoveAll, SB.AckData;
    DiffSign(c.obeying.value, c.snd.lastDataAckProcessed);
  }

  /** What does not concern ACK numbers leaves the invariant alone. */
  lemma Ack2Kept(c: Sys, d: Sys)
    requires Ack2Inv(c) && d.acks == c.acks && Released(c) <= Released(d)
    requires d.rcv.ackSeq == c.rcv.ackSeq && d.rcv.window == c.rcv.window && d.rcv.lastAck2 == c.rcv.lastAck2
    requires forall m :: m in d.net && m !in c.net && (m.FullAck? || m.Ack2?) ==>
      m.Ack2? && 1 <= m.ack <= |c.acks| && c.acks[m.ack - 1] <= Released(d)
    ensures Ack2Inv(d)
  {
    hide Released;
  }

  /** A step keeps a number confirmed only once the sender releases everything below it. */
  lemma StepKeepsAck2(c: Sys, e: Event)
    requires Inv(c) && Ack2Inv(c) && Enabled(c, e) && |Apply(c, e).acks| <= ACK_MAX
    ensures Ack2Inv(Apply(c, e))
  {
    hide S.PickResend, S.ReadResend, S.FetchNew, S.OnFullAck, S.OnNak, S.OnExp, S.Send, R.OnData, R.SendAck, R.Recv;
    hide R.Admits, W.StoreAll, AckLog;
    if e.SendAck? {
      Ack2Send(c, e.light, e.recent);
    } else if e.ToReceiver? && e.m.Ack2? {
      Ack2Confirm(c, e.m.ack);
    } else {
      ReleasedGrows(c, e);
      OtherSteps(c, e);
      hide Inv, Apply, Released;
      Ack2Kept(c, Apply(c, e));
    }
  }

  /** Steps other than sending or confirming an ACK do not touch its bookkeeping. */
  lemma OtherSteps(c: Sys, e: Event)
    requires Enabled(c, e) && !e.SendAck? && !(e.ToReceiver? && e.m.Ack2?)
    ensures
      var d := Apply(c, e);
      && d.acks == c.acks && d.rcv.ackSeq == c.rcv.ackSeq && d.rcv.window == c.rcv.window
      && d.rcv.lastAck2 == c.rcv.lastAck2
      && (forall m :: m in d.net && m !in c.net ==> !m.FullAck?)
      && (forall m :: m in d.net && m !in c.net && m.Ack2? ==>
            e.ToSender? && e.m.FullAck? && e.m in c.net && m.ack == e.m.ack)
  {
    hide S.PickResend, S.ReadResend, S.FetchNew, S.OnFullAck, S.OnNak, S.OnExp, S.Send, R.OnData, R.Recv, R.Admits;
    if e.ToReceiver? {
      if R.Admits(c.rcv, e.m.packet.seqNumber) {
        DataShape(c.rcv, e.m.packet);
      } else {
        NotAdmitted(c.rcv, e.m.packet);
      }
    } else if e.Recv? {
      RecvKeepsRest(c.rcv, e.room);
    }
  }

  lemma RecvKeepsRest(r: R.Rcv, room: nat)
    ensures R.Recv(r, room).1 == r.(buf := R.Recv(r, room).1.buf)
  {
  }

  lemma {:induction false} Ack2Run(c: Sys, es: seq<Event>)
    requires Inv(c) && Ack2Inv(c) && Legal(c, es) && AllUndisturbed(c, es)
    requires |Run(c, es).acks| <= ACK_MAX
    ensures Ack2Inv(Run(c, es)) && |c.acks| <= |Run(c, es).acks|
    decreases |es|
  {
    hide Inv;
    if es != [] {
      StepKeepsInv(c, es[0]);
      hide Ack2Inv;
      AcksGrow(Apply(c, es[0]), es[1..]);
      StepKeepsAck2(c, es[0]);
      Ack2Run(Apply(c, es[0]), es[1..]);
    }
    AcksGrow(c, es);
  }

  lemma {:induction false} AcksGrow(c: Sys, es: seq<Event>)
    requires Legal(c, es)
    ensures |c.acks| <= |Run(c, es).acks|
    decreases |es|
  {
    if es != [] {
      AcksGrow(Apply(c, es[0]), es[1..]);
    }
  }

  /**
   As long as ACK numbers have not run out, a number the receiver takes as confirmed is one the
   sender has released everything below, or is releasing: it can run ahead of the released
   blocks only while the ACK that carried at least that number is being obeyed.
   */
  lemma ConfirmedWasReleased(k: Config, es: seq<Event>)
    requires Covered(k) && Legal(Start(k), es) && AllUndisturbed(Start(k), es)
    requires |Run(Start(k), es).acks| <= ACK_MAX
    ensures
      var c := Run(Start(k), es);
      && Inv(c) && c.rcv.lastAck2 <= Released(c)
      && (c.obeying.None? ==> c.rcv.lastAck2 <= c.snd.lastDataAckProcessed)
      && (c.rcv.lastAck2 > c.snd.lastDataAckProcessed ==>
            c.obeying.Some? && c.rcv.lastAck2 <= c.obeying.value
            && Apply(c, Obey).snd.lastDataAckProcessed == c.obeying.value)
  {
    hide Inv, Start, Legal, Run, AllUndisturbed, S.OnFullAck;
    StartInv(k);
    StartAck2(k);
    Ack2Run(Start(k), es);
    RunKeepsInv(Start(k), es);
    var c := Run(Start(k), es);
    if c.obeying.Some? {
      ObeyReleases(c);
    }
  }
}
