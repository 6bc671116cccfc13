/**
 What every reachable state of a connection keeps, for an initial number of at least 1 and a
 send buffer of at most half the number range. Numbers are compared as plain integers:
 subtraction keeps their order (`DiffSign`). Blocks sent after the numbers have wrapped carry
 numbers the receiver has already passed, and are dropped by it.
 */
module Invariant {
  import opened SeqNumber
  import opened OrderedKeys
  import opened Packets
  import opened LossListModel
  import opened Connection
  import S = SenderModel
  import R = ReceiverModel
  import SB = SndBufferModel
  import RB = RcvBufferModel
  import W = AckWindowModel

  /** One past the number of the last block sent, not reduced to the number range. */
  ghost function Top(s: S.Snd): int {
    s.lastDataAckProcessed + s.buf.position
  }

  /** Every number from the initial one up to `n`, excluded, has been received. */
  ghost predicate Below(received: set<nat>, isn: nat, n: int) {
    forall x :: isn <= x < n ==> x in received
  }

  /** The blocks are the accepted messages, segmented. */
  ghost predicate HistoryInv(messages: seq<seq<Byte>>, history: seq<Block>, b: SB.SndBuf) {
    && b.payloadSize > 0
    && (forall i :: 0 <= i < |messages| ==> messages[i] != [])
    && history == SB.SegmentAll(messages, b.payloadSize, 0)
    && b.nextMsg == Shift(MSG_MAX, 0, |messages|)
  }

  /** The send buffer is the unacknowledged end of the history. */
  ghost predicate BufferInv(isn: nat, history: seq<Block>, s: S.Snd) {
    && 1 <= isn <= s.lastDataAckProcessed <= s.lastAckReceived <= SEQ_MAX
    && 0 <= s.buf.position <= |s.buf.blocks| <= s.buf.maxSize <= SEQ_MOD / 2
    && s.lastDataAckProcessed - isn <= |history|
    && s.buf.blocks == history[s.lastDataAckProcessed - isn..]
    && s.currSnd == (if Top(s) <= SEQ_MOD then Top(s) - 1 else Top(s) - 1 - SEQ_MOD)
  }

  /** What is scheduled to be sent again has been sent and, before any wrap, not released. */
  ghost predicate LossInv(isn: nat, s: S.Snd) {
    && WellFormed(s.lossList)
    && (forall x :: Has(s.lossList, x) ==> Scheduled(isn, s, x))
  }

  ghost predicate Scheduled(isn: nat, s: S.Snd, x: int) {
    && 0 <= x < Top(s)
    && (Top(s) <= SEQ_MOD ==> s.lastDataAckProcessed <= x)
    && (x == isn - 1 ==> isn < s.lastDataAckProcessed)
  }

  ghost predicate PendingInv(isn: nat, s: S.Snd, pending: Option<S.Resend>) {
    pending.Some? ==>
      var x := pending.value.seqNumber;
      && x <= SEQ_MAX && x < Top(s)
      && (x == isn - 1 ==> isn < s.lastDataAckProcessed)
      && (Top(s) <= SEQ_MOD ==> pending.value.offset >= 0)
  }

  /** The full ACK being carried out acknowledges only what the receiver has acknowledged. */
  ghost predicate ObeyInv(isn: nat, obeying: Option<nat>, r: R.Rcv) {
    obeying.Some? ==> isn <= obeying.value <= r.buf.nextToAck
  }

  /** The numbers up to the highest received split into received and lost. */
  ghost predicate SplitInv(isn: nat, received: set<nat>, r: R.Rcv) {
    && isn - 1 <= r.currRcv <= SEQ_MAX
    && WellFormed(r.lossList)
    && (forall x :: Has(r.lossList, x) ==> isn <= x < r.currRcv)
    && (forall x :: x in received <==> isn <= x <= r.currRcv && !Has(r.lossList, x))
  }

  ghost predicate AckInv(isn: nat, received: set<nat>, r: R.Rcv) {
    && 1 <= isn <= r.buf.nextToRead <= r.buf.nextToAck <= SEQ_MAX
    && (r.lastSentAck == r.buf.nextToAck || (r.lastSentAck == isn - 1 && r.buf.nextToAck == isn))
    && Below(received, isn, r.buf.nextToAck)
  }

  /** The receive buffer holds what was received and not yet read, and reading was faithful. */
  ghost predicate StreamInv(isn: nat, history: seq<Block>, received: set<nat>, b: RB.RcvBuf, delivered: seq<Byte>) {
    && isn <= b.nextToRead <= isn + |history|
    && (forall x :: x in b.packets <==> x in received && b.nextToRead <= x)
    && (forall x :: x in b.packets ==>
          isn <= x < isn + |history| && b.packets[x].data == history[x - isn].data)
    && delivered == Bytes(history[..b.nextToRead - isn])
  }

  ghost predicate WindowInv(isn: nat, r: R.Rcv) {
    && r.window.size > 0
    && isn <= r.lastAck2 <= r.buf.nextToAck
    && (forall k :: k in r.window.acks ==> isn <= r.window.acks[k] <= r.buf.nextToAck)
  }

  ghost predicate CrossInv(isn: nat, received: set<nat>, s: S.Snd, r: R.Rcv) {
    && r.currRcv + 1 <= Top(s)
    && s.lastDataAckProcessed <= r.buf.nextToAck
    && Below(received, isn, s.lastAckReceived)
  }

  /** A data packet carrying the bytes its number stands for. */
  ghost predicate Carries(isn: nat, history: seq<Block>, top: int, p: Packet) {
    && isn <= p.seqNumber <= SEQ_MAX && p.seqNumber < top && p.seqNumber - isn < |history|
    && p.data == history[p.seqNumber - isn].data
  }

  /** A data packet that is in every field the block its number stands for. */
  ghost predicate Genuine(isn: nat, history: seq<Block>, top: int, p: Packet) {
    Carries(isn, history, top, p) && p == AsPacket(history[p.seqNumber - isn], p.seqNumber)
  }

  ghost predicate GapNak(isn: nat, currRcv: nat, info: seq<nat>) {
    exists a, b :: isn <= a <= b < currRcv && info == R.GapInfo(a, b)
  }

  ghost predicate GoodMsg(c: Sys, m: Msg) {
    match m
    case DataMsg(p) =>
      Carries(c.isn, c.history, Top(c.snd), p) || p.seqNumber < c.rcv.lastSentAck || p.seqNumber in c.received
    case LightAck(next) => next <= SEQ_MAX && Below(c.received, c.isn, next)
    case FullAck(_, next) => c.isn <= next <= c.rcv.buf.nextToAck
    case Ack2(_) => true
    case Nak(info) => GapNak(c.isn, c.rcv.currRcv, info)
  }

  ghost predicate NetInv(c: Sys) {
    forall m :: m in c.net ==> GoodMsg(c, m)
  }

  ghost predicate Inv(c: Sys) {
    && HistoryInv(c.messages, c.history, c.snd.buf)
    && BufferInv(c.isn, c.history, c.snd)
    && LossInv(c.isn, c.snd)
    && PendingInv(c.isn, c.snd, c.pending)
    && ObeyInv(c.isn, c.obeying, c.rcv)
    && SplitInv(c.isn, c.received, c.rcv)
    && AckInv(c.isn, c.received, c.rcv)
    && StreamInv(c.isn, c.history, c.received, c.rcv.buf, c.delivered)
    && WindowInv(c.isn, c.rcv)
    && CrossInv(c.isn, c.received, c.snd, c.rcv)
    && NetInv(c)
  }

  // ---------------------------------------------------------------- growth

  /** What no step undoes. */
  ghost predicate Grows(c: Sys, d: Sys) {
    && d.isn == c.isn && c.history <= d.history && Top(c.snd) <= Top(d.snd)
    && c.rcv.lastSentAck <= d.rcv.lastSentAck && c.rcv.buf.nextToAck <= d.rcv.buf.nextToAck
    && c.rcv.currRcv <= d.rcv.currRcv && c.received <= d.received
  }

  lemma GoodMsgKept(c: Sys, d: Sys, m: Msg)
    requires Grows(c, d) && GoodMsg(c, m)
    ensures GoodMsg(d, m)
  {
  }

  /** Messages in flight stay good; only the new ones need looking at. */
  lemma NetKept(c: Sys, d: Sys)
    requires NetInv(c) && Grows(c, d)
    requires forall m :: m in d.net && m !in c.net ==> GoodMsg(d, m)
    ensures NetInv(d)
  {
    forall m | m in d.net
      ensures GoodMsg(d, m)
    {
      if m in c.net {
        GoodMsgKept(c, d, m);
      }
    }
  }

  // ---------------------------------------------------------------- start

  ghost predicate Covered(k: Config) {
    Sensible(k) && 1 <= k.isn && k.sndMaxSize <= SEQ_MOD / 2
  }

  lemma StartInv(k: Config)
    requires Covered(k)
    ensures Inv(Start(k))
  {
    var c := Start(k);
    assert forall x :: !Has(c.snd.lossList, x);
  }

  // ---------------------------------------------------------------- sender steps

  /** What a step of the sender has to show: the rest of the state is untouched. */
  lemma SenderStep(c: Sys, d: Sys)
    requires Inv(c) && d == c.(snd := d.snd, pending := d.pending, obeying := d.obeying, net := d.net)
    requires ObeyInv(d.isn, d.obeying, d.rcv)
    requires d.snd.buf.payloadSize == c.snd.buf.payloadSize && d.snd.buf.nextMsg == c.snd.buf.nextMsg
    requires BufferInv(d.isn, d.history, d.snd) && LossInv(d.isn, d.snd) && PendingInv(d.isn, d.snd, d.pending)
    requires Top(c.snd) <= Top(d.snd) && d.snd.lastDataAckProcessed <= d.rcv.buf.nextToAck
    requires Below(d.received, d.isn, d.snd.lastAckReceived)
    requires forall m :: m in d.net && m !in c.net ==> GoodMsg(d, m)
    ensures Inv(d) && Grows(c, d)
  {
    NetKept(c, d);
  }

  lemma SendKeepsHistory(c: Sys, data: seq<Byte>)
    requires HistoryInv(c.messages, c.history, c.snd.buf)
    ensures var d := AfterSend(c, data); HistoryInv(d.messages, d.history, d.snd.buf)
  {
    SB.SegmentAllAppend(c.messages, data, c.snd.buf.payloadSize, 0);
    ShiftTwice(MSG_MAX, 0, |c.messages|, 1);
  }

  lemma SendKeepsBuffer(c: Sys, data: seq<Byte>)
    requires c.snd.buf.payloadSize > 0 && BufferInv(c.isn, c.history, c.snd)
    ensures var d := AfterSend(c, data);
      && BufferInv(d.isn, d.history, d.snd) && c.history <= d.history
      && d.snd.lossList == c.snd.lossList && Top(d.snd) == Top(c.snd)
      && d.snd.lastDataAckProcessed == c.snd.lastDataAckProcessed && d.snd.lastAckReceived == c.snd.lastAckReceived
  {
    var blocks := SB.Segment(data, c.snd.buf.payloadSize, c.snd.buf.nextMsg, false);
    hide SB.Segment;
    var n := c.snd.lastDataAckProcessed - c.isn;
    assert (c.history + blocks)[n..] == c.history[n..] + blocks;
  }

  lemma StreamKept(c: Sys, d: Sys)
    requires StreamInv(c.isn, c.history, c.received, c.rcv.buf, c.delivered)
    requires d.isn == c.isn && c.history <= d.history && d.received == c.received
    requires d.rcv.buf == c.rcv.buf && d.delivered == c.delivered
    ensures StreamInv(d.isn, d.history, d.received, d.rcv.buf, d.delivered)
  {
    var n := c.rcv.buf.nextToRead - c.isn;
    assert d.history[..n] == c.history[..n];
  }

  lemma KeepSend(c: Sys, data: seq<Byte>)
    requires Inv(c)
    ensures Inv(AfterSend(c, data)) && Grows(c, AfterSend(c, data))
  {
    var d := AfterSend(c, data);
    SendKeepsHistory(c, data);
    SendKeepsBuffer(c, data);
    StreamKept(c, d);
    NetKept(c, d);
  }

  lemma PickKeepsLoss(isn: nat, s: S.Snd)
    requires LossInv(isn, s) && 0 <= s.buf.position <= SEQ_MOD / 2 && s.lastDataAckProcessed <= SEQ_MAX
    ensures LossInv(isn, S.PickResend(s).1) && PendingInv(isn, S.PickResend(s).1, S.PickResend(s).0)
  {
    PeekMeaning(s.lossList, s.lastDataAckProcessed);
    PopMeaning(s.lossList, s.lastDataAckProcessed);
    var popped := PopAfter(s.lossList, s.lastDataAckProcessed).0;
    if popped.Some? {
      assert Scheduled(isn, s, popped.value);
      DiffSign(popped.value, s.lastDataAckProcessed);
    }
    forall x | Has(S.PickResend(s).1.lossList, x)
      ensures Scheduled(isn, S.PickResend(s).1, x)
    {
      assert Scheduled(isn, s, x);
    }
  }

  lemma KeepPick(c: Sys)
    requires Inv(c) && Enabled(c, PickResend)
    ensures Inv(Apply(c, PickResend)) && Grows(c, Apply(c, PickResend))
  {
    hide S.PickResend, HistoryInv, BufferInv, LossInv, PendingInv, SplitInv, AckInv, StreamInv, WindowInv, NetInv;
    PickParts(c);
    SenderStep(c, Apply(c, PickResend));
  }

  lemma PickParts(c: Sys)
    requires BufferInv(c.isn, c.history, c.snd) && LossInv(c.isn, c.snd)
    ensures
      var s' := S.PickResend(c.snd).1;
      && BufferInv(c.isn, c.history, s') && LossInv(c.isn, s') && PendingInv(c.isn, s', S.PickResend(c.snd).0)
      && s' == c.snd.(lossList := s'.lossList)
  {
    PickKeepsLoss(c.isn, c.snd);
  }

  /** A retransmission carries the bytes its number stands for, or a number no longer waited for. */
  lemma ReadIsGood(c: Sys)
    requires c.pending.Some? && PendingInv(c.isn, c.snd, c.pending) && BufferInv(c.isn, c.history, c.snd)
    requires AckInv(c.isn, c.received, c.rcv) && CrossInv(c.isn, c.received, c.snd, c.rcv)
    requires S.ReadResend(c.snd, c.pending.value).Some? && !Harmful(c)
    ensures
      var p := S.ReadResend(c.snd, c.pending.value).value;
      p.seqNumber == c.pending.value.seqNumber && GoodMsg(c, DataMsg(p))
  {
    WaitedForIsUnreleased(c);
    hide AckInv, CrossInv;
    var Resend(x, offset) := c.pending.value;
    var own := x - c.snd.lastDataAckProcessed;
    if c.rcv.lastSentAck <= x && x !in c.received {
      assert c.snd.buf.blocks[offset].data == c.snd.buf.blocks[own].data == c.history[x - c.isn].data;
    }
  }

  /** A picked number the receiver has not acknowledged has not been released. */
  lemma WaitedForIsUnreleased(c: Sys)
    requires c.pending.Some? && PendingInv(c.isn, c.snd, c.pending)
    requires AckInv(c.isn, c.received, c.rcv) && CrossInv(c.isn, c.received, c.snd, c.rcv)
    ensures c.rcv.lastSentAck <= c.pending.value.seqNumber ==> c.snd.lastDataAckProcessed <= c.pending.value.seqNumber
  {
    hide Below;
  }

  /** A harmful read does send something else. */
  lemma HarmIsBad(c: Sys)
    requires BufferInv(c.isn, c.history, c.snd) && PendingInv(c.isn, c.snd, c.pending) && Harmful(c)
    ensures S.ReadResend(c.snd, c.pending.value).Some?
    ensures !GoodMsg(c, DataMsg(S.ReadResend(c.snd, c.pending.value).value))
  {
  }

  lemma KeepRead(c: Sys)
    requires Inv(c) && Enabled(c, ReadResend) && !Harmful(c)
    ensures Inv(AfterReadResend(c)) && Grows(c, AfterReadResend(c))
  {
    if S.ReadResend(c.snd, c.pending.value).Some? {
      ReadIsGood(c);
    }
    NetKept(c, AfterReadResend(c));
  }

  /** The number of the i-th new packet. */
  lemma FetchNumber(s: S.Snd, i: nat)
    requires 1 <= Top(s) && i < SEQ_MOD && Top(s) + i < 2 * SEQ_MOD
    requires s.currSnd == (if Top(s) <= SEQ_MOD then Top(s) - 1 else Top(s) - 1 - SEQ_MOD)
    ensures Add(Add(s.currSnd, 1), i) == if Top(s) + i <= SEQ_MAX then Top(s) + i else Top(s) + i - SEQ_MOD
    ensures Add(s.currSnd, i) == if Top(s) + i <= SEQ_MOD then Top(s) + i - 1 else Top(s) + i - 1 - SEQ_MOD
  {
    ShiftTwice(SEQ_MAX, s.currSnd, 1, i);
  }

  lemma FetchKeepsBuffer(isn: nat, history: seq<Block>, s: S.Snd, window: int)
    requires BufferInv(isn, history, s)
    ensures
      var s' := S.FetchNew(s, window).1;
      && BufferInv(isn, history, s') && Top(s') == Top(s) + |S.FetchNew(s, window).0|
      && s' == s.(currSnd := s'.currSnd, buf := s.buf.(position := s'.buf.position))
  {
    var n := SB.BatchLength(s.buf);
    FetchNumber(s, n);
  }

  lemma FetchKeepsLoss(isn: nat, s: S.Snd, s': S.Snd)
    requires LossInv(isn, s) && s'.lossList == s.lossList && s'.lastDataAckProcessed == s.lastDataAckProcessed
    requires Top(s) <= Top(s')
    ensures LossInv(isn, s')
  {
    forall x | Has(s'.lossList, x)
      ensures Scheduled(isn, s', x)
    {
      assert Scheduled(isn, s, x);
    }
  }

  /** New packets carry the blocks their numbers stand for, or numbers well behind. */
  lemma FetchIsGood(isn: nat, history: seq<Block>, s: S.Snd, window: int, i: nat)
    requires BufferInv(isn, history, s) && i < |S.FetchNew(s, window).0|
    ensures
      var packets := S.FetchNew(s, window).0;
      && (Genuine(isn, history, Top(s) + |packets|, packets[i]) || packets[i].seqNumber + 1 < s.lastDataAckProcessed)
      && (Top(s) + |packets| <= SEQ_MOD ==> Genuine(isn, history, Top(s) + |packets|, packets[i]))
  {
    FetchNumber(s, i);
    var p := S.FetchNew(s, window).0[i];
    assert p == AsPacket(s.buf.blocks[s.buf.position + i], Add(Add(s.currSnd, 1), i));
    assert s.buf.blocks[s.buf.position + i] == history[Top(s) + i - isn];
  }

  lemma FetchParts(c: Sys, window: int)
    requires 0 <= c.snd.buf.position <= |c.snd.buf.blocks|
    requires BufferInv(c.isn, c.history, c.snd) && LossInv(c.isn, c.snd)
    requires AckInv(c.isn, c.received, c.rcv) && CrossInv(c.isn, c.received, c.snd, c.rcv)
    ensures
      var (packets, s') := S.FetchNew(c.snd, window);
      && BufferInv(c.isn, c.history, s') && LossInv(c.isn, s') && Top(s') == Top(c.snd) + |packets|
      && s' == c.snd.(currSnd := s'.currSnd, buf := c.snd.buf.(position := s'.buf.position))
      && (forall p :: p in packets ==>
            Genuine(c.isn, c.history, Top(s'), p) || p.seqNumber < c.rcv.lastSentAck)
      && (Top(s') <= SEQ_MOD ==> forall p :: p in packets ==> Genuine(c.isn, c.history, Top(s'), p))
  {
    hide S.FetchNew, BufferInv, LossInv, AckInv, CrossInv, Genuine;
    var (packets, s') := S.FetchNew(c.snd, window);
    FetchKeepsBuffer(c.isn, c.history, c.snd, window);
    FetchKeepsLoss(c.isn, c.snd, s');
    ReceiverIsAhead(c);
    forall p | p in packets
      ensures Genuine(c.isn, c.history, Top(s'), p) || p.seqNumber < c.rcv.lastSentAck
      ensures Top(s') <= SEQ_MOD ==> Genuine(c.isn, c.history, Top(s'), p)
    {
      FetchedIsGood(c.isn, c.history, c.snd, window, p);
    }
  }

  lemma ReceiverIsAhead(c: Sys)
    requires AckInv(c.isn, c.received, c.rcv) && CrossInv(c.isn, c.received, c.snd, c.rcv)
    ensures c.snd.lastDataAckProcessed - 1 <= c.rcv.lastSentAck
  {
  }

  lemma FetchedIsGood(isn: nat, history: seq<Block>, s: S.Snd, window: int, p: Packet)
    requires BufferInv(isn, history, s) && 0 <= s.buf.position <= |s.buf.blocks| && p in S.FetchNew(s, window).0
    ensures
      var top := Top(s) + |S.FetchNew(s, window).0|;
      && (Genuine(isn, history, top, p) || p.seqNumber + 1 < s.lastDataAckProcessed)
      && (top <= SEQ_MOD ==> Genuine(isn, history, top, p))
  {
    hide S.FetchNew, BufferInv, Genuine;
    var packets := S.FetchNew(s, window).0;
    var i :| 0 <= i < |packets| && packets[i] == p;
    FetchIsGood(isn, history, s, window, i);
  }

  lemma KeepFetch(c: Sys, window: int)
    requires Inv(c) && Enabled(c, FetchNew(window))
    ensures Inv(AfterFetch(c, window)) && Grows(c, AfterFetch(c, window))
  {
    hide S.FetchNew, HistoryInv, LossInv, SplitInv, AckInv, StreamInv, WindowInv, NetInv, Carries, Below, ObeyInv;
    var d := AfterFetch(c, window);
    FetchParts(c, window);
    hide BufferInv;
    SenderStep(c, d);
  }

  lemma LightAckParts(c: Sys, next: nat)
    requires BufferInv(c.isn, c.history, c.snd) && LossInv(c.isn, c.snd) && PendingInv(c.isn, c.snd, c.pending)
    requires CrossInv(c.isn, c.received, c.snd, c.rcv) && next <= SEQ_MAX && Below(c.received, c.isn, next)
    ensures
      var s' := S.OnLightAck(c.snd, next);
      && BufferInv(c.isn, c.history, s') && LossInv(c.isn, s') && PendingInv(c.isn, s', c.pending)
      && s' == c.snd.(lastAckReceived := s'.lastAckReceived) && Below(c.received, c.isn, s'.lastAckReceived)
      && s'.lastAckReceived == (if next > c.snd.lastAckReceived then next else c.snd.lastAckReceived)
  {
    hide LossInv;
    DiffSign(next, c.snd.lastAckReceived);
    FetchKeepsLoss(c.isn, c.snd, S.OnLightAck(c.snd, next));
    hide Diff;
  }

  lemma KeepLightAck(c: Sys, next: nat)
    requires Inv(c) && GoodMsg(c, LightAck(next))
    ensures
      var d := c.(snd := S.OnLightAck(c.snd, next));
      Inv(d) && Grows(c, d)
  {
    hide S.OnLightAck, HistoryInv, BufferInv, LossInv, PendingInv, SplitInv, AckInv, StreamInv, WindowInv, NetInv;
    var d := c.(snd := S.OnLightAck(c.snd, next));
    LightAckParts(c, next);
    SenderStep(c, d);
  }

  /** What has been received below `n` was sent: `n` cannot exceed the top. */
  lemma ReceivedWasSent(isn: nat, received: set<nat>, s: S.Snd, r: R.Rcv, n: int)
    requires SplitInv(isn, received, r) && Below(received, isn, n) && r.currRcv + 1 <= Top(s) && isn <= Top(s)
    ensures n <= isn || n <= r.currRcv + 1 <= Top(s)
  {
    if n > isn {
      assert n - 1 in received;
    }
  }

  lemma FullAckKeepsBuffer(isn: nat, history: seq<Block>, s: S.Snd, next: nat)
    requires BufferInv(isn, history, s) && isn <= next <= SEQ_MAX && next <= Top(s)
    ensures
      var s' := S.OnFullAck(s, next);
      && BufferInv(isn, history, s') && Top(s') == Top(s)
      && s'.lastDataAckProcessed == (if next > s.lastDataAckProcessed then next else s.lastDataAckProcessed)
      && s'.lastAckReceived == (if next > s.lastAckReceived then next else s.lastAckReceived)
      && s'.buf.payloadSize == s.buf.payloadSize && s'.buf.nextMsg == s.buf.nextMsg
      && (Top(s) <= SEQ_MOD ==> s'.status == s.status)
  {
    hide S.OnFullAck;
    FullAckShape(s, next);
    var n := next - s.lastDataAckProcessed;
    assert n > 0 ==> s.buf.blocks[n..] == history[next - isn..];
  }

  /** What a full ACK changes, if it is not too far ahead. */
  lemma FullAckShape(s: S.Snd, next: nat)
    requires s.lastDataAckProcessed <= SEQ_MAX && s.lastAckReceived <= SEQ_MAX && s.currSnd <= SEQ_MAX
    requires next <= SEQ_MAX && next - s.lastDataAckProcessed <= SEQ_MOD / 2
    ensures
      var s' := S.OnFullAck(s, next);
      && s' == s.(status := s'.status, lossList := s'.lossList,
                  lastAckReceived := if next > s.lastAckReceived then next else s.lastAckReceived,
                  lastDataAckProcessed := if next > s.lastDataAckProcessed then next else s.lastDataAckProcessed,
                  buf := if next > s.lastDataAckProcessed then SB.AckData(s.buf, next - s.lastDataAckProcessed) else s.buf)
      && (next <= s.currSnd + 1 ==> s'.status == s.status)
  {
    hide RemoveAll, SB.AckData;
    DiffSign(next, s.lastDataAckProcessed);
    DiffSign(next, s.lastAckReceived);
    DiffSign(next, s.currSnd);
    hide Diff;
  }

  lemma FullAckKeepsLoss(isn: nat, s: S.Snd, next: nat)
    requires LossInv(isn, s) && 1 <= isn <= s.lastDataAckProcessed <= SEQ_MAX && next <= SEQ_MAX
    requires Top(S.OnFullAck(s, next)) == Top(s)
    ensures LossInv(isn, S.OnFullAck(s, next))
  {
    var s' := S.OnFullAck(s, next);
    DiffSign(next, s.lastDataAckProcessed);
    if next > s.lastDataAckProcessed {
      RemoveAllMeaning(s.lossList, s.lastDataAckProcessed, next - 1);
    }
    forall x | Has(s'.lossList, x)
      ensures Scheduled(isn, s', x)
    {
      assert Scheduled(isn, s, x);
    }
  }

  lemma FullAckParts(c: Sys, next: nat)
    requires BufferInv(c.isn, c.history, c.snd) && LossInv(c.isn, c.snd) && PendingInv(c.isn, c.snd, c.pending)
    requires SplitInv(c.isn, c.received, c.rcv) && AckInv(c.isn, c.received, c.rcv)
    requires CrossInv(c.isn, c.received, c.snd, c.rcv) && c.isn <= next <= c.rcv.buf.nextToAck
    ensures
      var s' := S.OnFullAck(c.snd, next);
      && BufferInv(c.isn, c.history, s') && LossInv(c.isn, s') && PendingInv(c.isn, s', c.pending)
      && Top(s') == Top(c.snd) && s'.lastDataAckProcessed <= c.rcv.buf.nextToAck
      && Below(c.received, c.isn, s'.lastAckReceived)
      && s'.buf.payloadSize == c.snd.buf.payloadSize && s'.buf.nextMsg == c.snd.buf.nextMsg
      && (Top(c.snd) <= SEQ_MOD ==> s'.status == c.snd.status)
  {
    hide S.OnFullAck, Has;
    ReceivedWasSent(c.isn, c.received, c.snd, c.rcv, next);
    FullAckKeepsBuffer(c.isn, c.history, c.snd, next);
    FullAckKeepsLoss(c.isn, c.snd, next);
  }

  lemma KeepFullAck(c: Sys, ack: nat, next: nat, confirm: bool)
    requires Inv(c) && GoodMsg(c, FullAck(ack, next))
    ensures
      var d := AfterToSender(c, FullAck(ack, next), confirm);
      Inv(d) && Grows(c, d)
  {
    var d := AfterToSender(c, FullAck(ack, next), confirm);
    hide HistoryInv, BufferInv, LossInv, SplitInv, AckInv, StreamInv, WindowInv, PendingInv, Carries, Below, GapNak;
    SenderStep(c, d);
  }

  lemma KeepObey(c: Sys)
    requires Inv(c) && Enabled(c, Obey)
    ensures Inv(Apply(c, Obey)) && Grows(c, Apply(c, Obey))
  {
    hide S.OnFullAck, HistoryInv, BufferInv, LossInv, SplitInv, AckInv, StreamInv, WindowInv, NetInv;
    hide PendingInv, Carries, Below, GapNak;
    FullAckParts(c, c.obeying.value);
    SenderStep(c, Apply(c, Obey));
  }

  /** Between the two peers a NAK lists one range, which the loop records in one round. */
  lemma NakEffect(s: S.Snd, a: nat, b: nat)
    requires a <= b <= SEQ_MAX
    ensures S.NakLoop(s, R.GapInfo(a, b)) ==
      if S.Refused(s, a, b) then (true, s) else (false, S.RecordLoss(s, a, b))
  {
    var info := R.GapInfo(a, b);
    assert S.FrontRange(info) == Some((a, b, |info|));
    assert info[|info|..] == [];
  }

  lemma RecordKeepsLoss(isn: nat, s: S.Snd, a: nat, b: nat)
    requires LossInv(isn, s) && 1 <= isn <= a <= b <= SEQ_MAX && b < Top(s)
    requires isn <= s.lastDataAckProcessed <= s.lastAckReceived <= SEQ_MAX
    ensures LossInv(isn, S.RecordLoss(s, a, b))
  {
    var s' := S.RecordLoss(s, a, b);
    DiffSign(a, s.lastAckReceived);
    DiffSign(b, s.lastAckReceived);
    if a >= s.lastAckReceived {
      InsertMeaning(s.lossList, a, b);
    } else if b >= s.lastAckReceived {
      InsertMeaning(s.lossList, s.lastAckReceived, b);
    }
    forall x | Has(s'.lossList, x)
      ensures Scheduled(isn, s', x)
    {
      assert Has(s.lossList, x) ==> Scheduled(isn, s, x);
    }
  }

  lemma NakKeepsLoss(isn: nat, s: S.Snd, a: nat, b: nat)
    requires LossInv(isn, s) && 1 <= isn <= a <= b <= SEQ_MAX && b < Top(s)
    requires isn <= s.lastDataAckProcessed <= s.lastAckReceived <= SEQ_MAX
    ensures
      var s' := S.OnNak(s, R.GapInfo(a, b));
      && LossInv(isn, s') && s' == s.(status := s'.status, lossList := s'.lossList)
      && (s.currSnd == Top(s) - 1 <= SEQ_MAX ==> s'.status == s.status)
  {
    NakEffect(s, a, b);
    DiffSign(a, b);
    RecordKeepsLoss(isn, s, a, b);
    if s.currSnd == Top(s) - 1 && s.currSnd <= SEQ_MAX {
      DiffSign(b, s.currSnd);
    }
  }

  lemma NakParts(c: Sys, info: seq<nat>)
    requires BufferInv(c.isn, c.history, c.snd) && LossInv(c.isn, c.snd) && PendingInv(c.isn, c.snd, c.pending)
    requires CrossInv(c.isn, c.received, c.snd, c.rcv) && GapNak(c.isn, c.rcv.currRcv, info)
    requires c.rcv.currRcv <= SEQ_MAX
    ensures
      var s' := S.OnNak(c.snd, info);
      && BufferInv(c.isn, c.history, s') && LossInv(c.isn, s') && PendingInv(c.isn, s', c.pending)
      && s' == c.snd.(status := s'.status, lossList := s'.lossList)
      && (Top(c.snd) <= SEQ_MOD ==> s'.status == c.snd.status)
  {
    hide S.OnNak, LossInv, R.GapInfo;
    var a, b :| c.isn <= a <= b < c.rcv.currRcv && info == R.GapInfo(a, b);
    NakKeepsLoss(c.isn, c.snd, a, b);
  }

  lemma KeepNak(c: Sys, info: seq<nat>)
    requires Inv(c) && GoodMsg(c, Nak(info))
    ensures
      var d := c.(snd := S.OnNak(c.snd, info));
      Inv(d) && Grows(c, d)
  {
    assert c.rcv.currRcv <= SEQ_MAX;
    hide S.OnNak, HistoryInv, BufferInv, LossInv, PendingInv, SplitInv, AckInv, StreamInv, WindowInv, NetInv;
    var d := c.(snd := S.OnNak(c.snd, info));
    NakParts(c, info);
    SenderStep(c, d);
  }

  lemma ExpKeepsLoss(isn: nat, s: S.Snd)
    requires LossInv(isn, s) && 1 <= isn <= s.lastDataAckProcessed <= s.lastAckReceived <= SEQ_MAX
    requires s.lastAckReceived <= Top(s) && 0 <= s.buf.position <= SEQ_MOD / 2
    requires s.currSnd == (if Top(s) <= SEQ_MOD then Top(s) - 1 else Top(s) - 1 - SEQ_MOD)
    ensures LossInv(isn, S.OnExp(s))
    ensures S.OnExp(s) == s.(lossList := S.OnExp(s).lossList)
    ensures S.OnExp(s) != s && Top(s) <= SEQ_MOD ==>
      forall x :: Has(S.OnExp(s).lossList, x) <==> s.lastAckReceived <= x < Top(s)
  {
    var s' := S.OnExp(s);
    if s' != s {
      assert forall x :: !Has(s.lossList, x);
      InsertMeaning(s.lossList, s.lastAckReceived, s.currSnd);
      forall x | Has(s'.lossList, x)
        ensures Scheduled(isn, s', x)
      {
        HasBounds(s'.lossList, x);
      }
    }
  }

  lemma KeepExp(c: Sys)
    requires Inv(c)
    ensures
      var d := c.(snd := S.OnExp(c.snd));
      Inv(d) && Grows(c, d)
  {
    hide S.OnExp, HistoryInv, BufferInv, LossInv, PendingInv, SplitInv, AckInv, StreamInv, WindowInv, NetInv;
    var d := c.(snd := S.OnExp(c.snd));
    ExpParts(c);
    SenderStep(c, d);
  }

  lemma ExpParts(c: Sys)
    requires BufferInv(c.isn, c.history, c.snd) && LossInv(c.isn, c.snd) && PendingInv(c.isn, c.snd, c.pending)
    requires SplitInv(c.isn, c.received, c.rcv) && CrossInv(c.isn, c.received, c.snd, c.rcv)
    ensures
      var s' := S.OnExp(c.snd);
      && BufferInv(c.isn, c.history, s') && LossInv(c.isn, s') && PendingInv(c.isn, s', c.pending)
      && s' == c.snd.(lossList := s'.lossList)
  {
    hide S.OnExp, LossInv;
    ReceivedWasSent(c.isn, c.received, c.snd, c.rcv, c.snd.lastAckReceived);
    ExpKeepsLoss(c.isn, c.snd);
    hide Below, SplitInv, CrossInv;
  }

  lemma KeepSenderStatus(c: Sys, status: S.Status)
    requires Inv(c)
    ensures
      var d := c.(snd := c.snd.(status := status));
      Inv(d) && Grows(c, d)
  {
    var d := c.(snd := c.snd.(status := status));
    FetchKeepsLoss(c.isn, c.snd, d.snd);
    SenderStep(c, d);
  }

  // ---------------------------------------------------------------- receiver steps

  /** What a step of the receiver has to show. */
  lemma ReceiverStep(c: Sys, d: Sys)
    requires Inv(c) && Grows(c, d)
    requires d == c.(rcv := d.rcv, received := d.received, delivered := d.delivered, net := d.net, acks := d.acks)
    requires SplitInv(d.isn, d.received, d.rcv) && AckInv(d.isn, d.received, d.rcv) && WindowInv(d.isn, d.rcv)
    requires StreamInv(d.isn, d.history, d.received, d.rcv.buf, d.delivered)
    requires d.rcv.currRcv + 1 <= Top(d.snd)
    requires forall m :: m in d.net && m !in c.net ==> GoodMsg(d, m)
    ensures Inv(d)
  {
    NetKept(c, d);
  }

  /** An admitted packet carries its bytes or is a duplicate, and numbers beyond the highest are a true gap. */
  lemma AdmittedIsGood(c: Sys, p: Packet)
    requires GoodMsg(c, DataMsg(p)) && R.Admits(c.rcv, p.seqNumber)
    requires SplitInv(c.isn, c.received, c.rcv) && AckInv(c.isn, c.received, c.rcv)
    requires BufferInv(c.isn, c.history, c.snd) && CrossInv(c.isn, c.received, c.snd, c.rcv)
    ensures Carries(c.isn, c.history, Top(c.snd), p) || p.seqNumber in c.received
    ensures c.isn <= p.seqNumber <= SEQ_MAX && c.rcv.lastSentAck <= p.seqNumber < Top(c.snd)
    ensures c.rcv.buf.nextToRead <= p.seqNumber && 1 <= c.isn <= c.rcv.currRcv + 1
    ensures Diff(p.seqNumber, c.rcv.currRcv) > 1 <==> p.seqNumber > c.rcv.currRcv + 1
    ensures Diff(p.seqNumber, c.rcv.currRcv) > 0 <==> p.seqNumber > c.rcv.currRcv
  {
    Limits(c);
    assert p.seqNumber in c.received ==> c.isn <= p.seqNumber <= c.rcv.currRcv;
    hide SplitInv, AckInv, BufferInv, CrossInv;
    AdmittedNumbers(c, p);
    hide R.Admits, Diff;
  }

  /** The numeric limits the admission of a packet rests on. */
  ghost predicate InLimits(c: Sys) {
    && 1 <= c.isn <= c.rcv.buf.nextToRead <= c.rcv.buf.nextToAck <= c.rcv.currRcv + 1 <= Top(c.snd)
    && c.rcv.currRcv <= SEQ_MAX && c.rcv.lastSentAck <= SEQ_MAX
    && c.snd.lastDataAckProcessed <= c.rcv.buf.nextToAck && Top(c.snd) <= c.snd.lastDataAckProcessed + SEQ_MOD / 2
    && (c.rcv.lastSentAck == c.rcv.buf.nextToAck || (c.rcv.lastSentAck == c.isn - 1 && c.rcv.buf.nextToAck == c.isn))
  }

  lemma Limits(c: Sys)
    requires SplitInv(c.isn, c.received, c.rcv) && AckInv(c.isn, c.received, c.rcv)
    requires BufferInv(c.isn, c.history, c.snd) && CrossInv(c.isn, c.received, c.snd, c.rcv)
    ensures InLimits(c)
  {
    ReceivedWasSent(c.isn, c.received, c.snd, c.rcv, c.rcv.buf.nextToAck);
  }

  lemma AdmittedNumbers(c: Sys, p: Packet)
    requires InLimits(c) && R.Admits(c.rcv, p.seqNumber)
    requires Carries(c.isn, c.history, Top(c.snd), p) || p.seqNumber < c.rcv.lastSentAck
      || c.isn <= p.seqNumber <= c.rcv.currRcv
    ensures c.isn <= p.seqNumber <= SEQ_MAX && c.rcv.lastSentAck <= p.seqNumber < Top(c.snd)
    ensures c.rcv.buf.nextToRead <= p.seqNumber
    ensures Diff(p.seqNumber, c.rcv.currRcv) > 1 <==> p.seqNumber > c.rcv.currRcv + 1
    ensures Diff(p.seqNumber, c.rcv.currRcv) > 0 <==> p.seqNumber > c.rcv.currRcv
  {
    if p.seqNumber <= SEQ_MAX {
      DiffSign(p.seqNumber, c.rcv.lastSentAck);
      DiffSign(p.seqNumber, c.rcv.currRcv);
    }
  }

  /** The split after a packet numbered `x` has been taken in. */
  lemma DataKeepsSplit(isn: nat, received: set<nat>, r: R.Rcv, p: Packet)
    requires SplitInv(isn, received, r) && 1 <= isn <= p.seqNumber <= SEQ_MAX && R.Admits(r, p.seqNumber)
    requires Diff(p.seqNumber, r.currRcv) > 1 <==> p.seqNumber > r.currRcv + 1
    requires Diff(p.seqNumber, r.currRcv) > 0 <==> p.seqNumber > r.currRcv
    ensures SplitInv(isn, received + {p.seqNumber}, R.OnData(r, p).0)
  {
    hide Insert, Remove, Has, Diff, R.Admits, WellFormed, RB.Insert;
    var x := p.seqNumber;
    if x > r.currRcv + 1 {
      InsertMeaning(r.lossList, r.currRcv + 1, x - 1);
    } else if x <= r.currRcv {
      RemoveMeaning(r.lossList, x);
    }
  }

  lemma DataKeepsStream(isn: nat, history: seq<Block>, received: set<nat>, b: RB.RcvBuf, delivered: seq<Byte>, p: Packet, top: int)
    requires StreamInv(isn, history, received, b, delivered)
    requires (Carries(isn, history, top, p) || p.seqNumber in received) && b.nextToRead <= p.seqNumber
    ensures StreamInv(isn, history, received + {p.seqNumber}, RB.Insert(b, p), delivered)
  {
  }

  lemma DataParts(c: Sys, p: Packet)
    requires GoodMsg(c, DataMsg(p)) && R.Admits(c.rcv, p.seqNumber)
    requires SplitInv(c.isn, c.received, c.rcv) && AckInv(c.isn, c.received, c.rcv) && WindowInv(c.isn, c.rcv)
    requires BufferInv(c.isn, c.history, c.snd) && CrossInv(c.isn, c.received, c.snd, c.rcv)
    requires StreamInv(c.isn, c.history, c.received, c.rcv.buf, c.delivered)
    ensures
      var (r', nak) := R.OnData(c.rcv, p);
      var received' := c.received + {p.seqNumber};
      && SplitInv(c.isn, received', r') && AckInv(c.isn, received', r') && WindowInv(c.isn, r')
      && StreamInv(c.isn, c.history, received', r'.buf, c.delivered)
      && r'.currRcv + 1 <= Top(c.snd) && c.rcv.currRcv <= r'.currRcv
      && r'.lastSentAck == c.rcv.lastSentAck && r'.buf.nextToAck == c.rcv.buf.nextToAck
      && (nak.Some? ==> GapNak(c.isn, r'.currRcv, nak.value))
  {
    hide R.OnData, R.Admits, SplitInv, BufferInv, StreamInv, AckInv, Diff;
    AdmittedIsGood(c, p);
    DataKeepsSplit(c.isn, c.received, c.rcv, p);
    DataShape(c.rcv, p);
    DataKeepsStream(c.isn, c.history, c.received, c.rcv.buf, c.delivered, p, Top(c.snd));
    AckInvGrows(c.isn, c.received, c.received + {p.seqNumber}, c.rcv, R.OnData(c.rcv, p).0);
    if p.seqNumber > c.rcv.currRcv + 1 {
      assert c.isn <= c.rcv.currRcv + 1 <= p.seqNumber - 1 < p.seqNumber;
    }
  }

  lemma AckInvGrows(isn: nat, received: set<nat>, received': set<nat>, r: R.Rcv, r': R.Rcv)
    requires AckInv(isn, received, r) && received <= received'
    requires r'.lastSentAck == r.lastSentAck && r'.buf.nextToRead == r.buf.nextToRead && r'.buf.nextToAck == r.buf.nextToAck
    ensures AckInv(isn, received', r')
  {
  }

  lemma NotAdmitted(r: R.Rcv, p: Packet)
    requires !R.Admits(r, p.seqNumber)
    ensures R.OnData(r, p) == (r, None)
  {
  }

  /** Which fields taking in a packet changes. */
  lemma DataShape(r: R.Rcv, p: Packet)
    requires R.Admits(r, p.seqNumber)
    ensures
      var (r', nak) := R.OnData(r, p);
      && r' == r.(buf := RB.Insert(r.buf, p), lossList := r'.lossList,
                  currRcv := if Diff(p.seqNumber, r.currRcv) > 0 then p.seqNumber else r.currRcv)
      && nak == (if Diff(p.seqNumber, r.currRcv) > 1
                 then Some(R.GapInfo(Add(r.currRcv, 1), Add(p.seqNumber, -1))) else None)
  {
  }

  lemma KeepData(c: Sys, p: Packet)
    requires Inv(c) && DataMsg(p) in c.net
    ensures Inv(AfterData(c, p)) && Grows(c, AfterData(c, p))
  {
    hide R.OnData, R.Admits, HistoryInv, BufferInv, LossInv, SplitInv, AckInv, StreamInv, WindowInv;
    hide PendingInv, Carries, Below, GapNak;
    var d := AfterData(c, p);
    if R.Admits(c.rcv, p.seqNumber) {
      assert GoodMsg(c, DataMsg(p));
      hide NetInv;
      DataParts(c, p);
      ReceiverStep(c, d);
    } else {
      NotAdmitted(c.rcv, p);
      assert d == c;
    }
  }

  lemma KeepAck2(c: Sys, ack: nat)
    requires Inv(c)
    ensures
      var d := c.(rcv := R.OnAck2(c.rcv, ack));
      Inv(d) && Grows(c, d)
  {
    hide R.OnAck2, HistoryInv, BufferInv, LossInv, PendingInv, SplitInv, AckInv, StreamInv, WindowInv, NetInv;
    var d := c.(rcv := R.OnAck2(c.rcv, ack));
    Ack2Parts(c, ack);
    ReceiverStep(c, d);
  }

  lemma Ack2Parts(c: Sys, ack: nat)
    requires SplitInv(c.isn, c.received, c.rcv) && AckInv(c.isn, c.received, c.rcv) && WindowInv(c.isn, c.rcv)
    ensures
      var r' := R.OnAck2(c.rcv, ack);
      && SplitInv(c.isn, c.received, r') && AckInv(c.isn, c.received, r') && WindowInv(c.isn, r')
      && r' == c.rcv.(lastAck2 := r'.lastAck2)
  {
    var stored := W.Get(c.rcv.window, ack);
    if stored.Some? {
      DiffSign(stored.value, c.rcv.lastAck2);
    }
  }

  /**
   `send_ack` picks a number below which everything has been received: the first missing one,
   or 0 when every number up to the maximum has been received.
   */
  lemma NextMissingMeaning(isn: nat, received: set<nat>, r: R.Rcv)
    requires SplitInv(isn, received, r) && 1 <= isn
    ensures
      var n := R.NextMissing(r);
      && n <= SEQ_MAX && n !in received && Below(received, isn, n)
      && (isn <= n <= r.currRcv + 1 || (n == 0 && r.currRcv == SEQ_MAX))
  {
    PeekMeaning(r.lossList, Add(r.currRcv, 1));
    var lost := PeekAfter(r.lossList, Add(r.currRcv, 1));
    if lost.Some? {
      forall x | isn <= x < lost.value
        ensures x in received
      {
        assert Ahead(Add(r.currRcv, 1), x) < Ahead(Add(r.currRcv, 1), lost.value);
      }
    }
  }

  lemma SendAckParts(c: Sys, light: bool, recent: bool)
    requires SplitInv(c.isn, c.received, c.rcv) && AckInv(c.isn, c.received, c.rcv) && WindowInv(c.isn, c.rcv)
    ensures
      var (r', message) := R.SendAck(c.rcv, light, recent);
      && SplitInv(c.isn, c.received, r') && AckInv(c.isn, c.received, r') && WindowInv(c.isn, r')
      && r' == c.rcv.(lastSentAck := r'.lastSentAck, ackSeq := r'.ackSeq, window := r'.window,
                      buf := c.rcv.buf.(nextToAck := r'.buf.nextToAck))
      && c.rcv.lastSentAck <= r'.lastSentAck && c.rcv.buf.nextToAck <= r'.buf.nextToAck
      && (message.Some? && message.value.Light? ==>
            message.value.next <= SEQ_MAX && Below(c.received, c.isn, message.value.next))
      && (message.Some? && message.value.Full? ==> c.isn <= message.value.next <= r'.buf.nextToAck)
  {
    hide R.NextMissing, Has, WellFormed;
    var n := R.NextMissing(c.rcv);
    NextMissingMeaning(c.isn, c.received, c.rcv);
    DiffSign(n, c.rcv.lastSentAck);
    DiffSign(n, c.rcv.buf.nextToAck);
    DiffSign(n, c.rcv.lastAck2);
    DiffSign(c.rcv.lastSentAck, c.rcv.lastAck2);
    hide Diff, Shift;
  }

  lemma KeepSendAck(c: Sys, light: bool, recent: bool)
    requires Inv(c)
    ensures Inv(AfterSendAck(c, light, recent)) && Grows(c, AfterSendAck(c, light, recent))
  {
    var d := AfterSendAck(c, light, recent);
    hide R.SendAck, HistoryInv, BufferInv, LossInv, PendingInv, SplitInv, AckInv, StreamInv, NetInv, Below;
    SendAckParts(c, light, recent);
    SendAckStream(c, R.SendAck(c.rcv, light, recent).0);
    ReceiverStep(c, d);
  }

  lemma SendAckStream(c: Sys, r': R.Rcv)
    requires StreamInv(c.isn, c.history, c.received, c.rcv.buf, c.delivered)
    requires r'.buf == c.rcv.buf.(nextToAck := r'.buf.nextToAck)
    ensures StreamInv(c.isn, c.history, c.received, r'.buf, c.delivered)
  {
  }

  /** What may be read is one contiguous run of packets. */
  lemma {:induction false} ContiguousKeys(keys: set<nat>, lo: nat, hi: nat)
    requires lo <= hi && forall x :: lo <= x < hi ==> x in keys
    ensures |KeysIn(keys, lo, hi)| == hi - lo
    ensures forall i :: 0 <= i < hi - lo ==> KeysIn(keys, lo, hi)[i] == lo + i
    decreases hi - lo
  {
    if lo < hi {
      ContiguousKeys(keys, lo + 1, hi);
    }
  }

  /** The payload of a contiguous run is that piece of the history. */
  lemma {:induction false} PayloadIsHistory(packets: map<nat, Packet>, keys: seq<nat>, history: seq<Block>, isn: nat, lo: nat)
    requires isn <= lo && lo - isn + |keys| <= |history|
    requires forall i :: 0 <= i < |keys| ==>
      keys[i] == lo + i && keys[i] in packets && packets[keys[i]].data == history[lo + i - isn].data
    ensures RB.Payload(packets, keys) == Bytes(history[lo - isn..lo - isn + |keys|])
  {
    if keys != [] {
      var piece := history[lo - isn..lo - isn + |keys|];
      assert Bytes(piece) == piece[0].data + Bytes(piece[1..]);
      assert RB.Payload(packets, keys) == piece[0].data + RB.Payload(packets, keys[1..]);
      hide Bytes, RB.Payload;
      assert piece[1..] == history[lo + 1 - isn..lo - isn + |keys|];
      PayloadIsHistory(packets, keys[1..], history, isn, lo + 1);
    }
  }

  /** Reading a contiguous run of packets delivers as many blocks of the history. */
  lemma TakeKeepsStream(isn: nat, history: seq<Block>, received: set<nat>, b: RB.RcvBuf, delivered: seq<Byte>, keys: seq<nat>)
    requires StreamInv(isn, history, received, b, delivered)
    requires b.nextToRead + |keys| <= SEQ_MAX
    requires forall i :: 0 <= i < |keys| ==> keys[i] == b.nextToRead + i && keys[i] in b.packets
    ensures StreamInv(isn, history, received, RB.Taken(b, keys), delivered + RB.Payload(b.packets, keys))
    ensures RB.Taken(b, keys).nextToRead == b.nextToRead + |keys|
  {
    hide Bytes, RB.Payload, RB.Taken;
    TakenKeys(b, keys);
    TakenInHistory(isn, history, received, b, delivered, keys);
    TakenBytes(isn, history, b, keys);
  }

  lemma TakenInHistory(isn: nat, history: seq<Block>, received: set<nat>, b: RB.RcvBuf, delivered: seq<Byte>, keys: seq<nat>)
    requires StreamInv(isn, history, received, b, delivered)
    requires forall i :: 0 <= i < |keys| ==> keys[i] == b.nextToRead + i && keys[i] in b.packets
    ensures isn <= b.nextToRead && b.nextToRead - isn + |keys| <= |history|
    ensures forall i :: 0 <= i < |keys| ==> b.packets[keys[i]].data == history[keys[i] - isn].data
  {
    hide Bytes;
    assert |keys| > 0 ==> keys[|keys| - 1] in b.packets;
  }

  lemma TakenBytes(isn: nat, history: seq<Block>, b: RB.RcvBuf, keys: seq<nat>)
    requires isn <= b.nextToRead && b.nextToRead - isn + |keys| <= |history|
    requires forall i :: 0 <= i < |keys| ==>
      && keys[i] == b.nextToRead + i && keys[i] in b.packets
      && b.packets[keys[i]].data == history[keys[i] - isn].data
    ensures Bytes(history[..b.nextToRead - isn]) + RB.Payload(b.packets, keys)
      == Bytes(history[..b.nextToRead - isn + |keys|])
  {
    hide Bytes, RB.Payload;
    var lo, n := b.nextToRead - isn, |keys|;
    PayloadIsHistory(b.packets, keys, history, isn, b.nextToRead);
    BytesAppend(history[..lo], history[lo..lo + n]);
    assert history[..lo + n] == history[..lo] + history[lo..lo + n];
  }

  lemma TakenKeys(b: RB.RcvBuf, keys: seq<nat>)
    requires b.nextToRead + |keys| <= SEQ_MAX
    requires forall i :: 0 <= i < |keys| ==> keys[i] == b.nextToRead + i
    ensures RB.Taken(b, keys).nextToRead == b.nextToRead + |keys|
    ensures forall x :: x in RB.Taken(b, keys).packets <==>
                        x in b.packets && !(b.nextToRead <= x < b.nextToRead + |keys|)
    ensures forall x :: x in RB.Taken(b, keys).packets ==> RB.Taken(b, keys).packets[x] == b.packets[x]
  {
    forall x
      ensures x in keys <==> b.nextToRead <= x < b.nextToRead + |keys|
    {
      if b.nextToRead <= x < b.nextToRead + |keys| {
        assert keys[x - b.nextToRead] == x;
      }
    }
  }

  lemma RecvParts(c: Sys, room: nat)
    requires AckInv(c.isn, c.received, c.rcv)
    requires StreamInv(c.isn, c.history, c.received, c.rcv.buf, c.delivered)
    ensures
      var (result, r') := R.Recv(c.rcv, room);
      var read := if result.Delivered? then result.data else [];
      && StreamInv(c.isn, c.history, c.received, r'.buf, c.delivered + read)
      && r' == c.rcv.(buf := r'.buf) && r'.buf.nextToAck == c.rcv.buf.nextToAck
      && r'.buf.nextToRead <= r'.buf.nextToAck
  {
    hide KeysIn, RB.FitCount, RB.Payload, Bytes;
    var b := c.rcv.buf;
    ContiguousKeys(b.packets.Keys, b.nextToRead, b.nextToAck);
    var keys := RB.Readable(b);
    var n := RB.FitCount(b.packets, keys, room);
    assert |keys| == b.nextToAck - b.nextToRead;
    TakeKeepsStream(c.isn, c.history, c.received, b, c.delivered, keys[..n]);
    assert c.delivered + [] == c.delivered;
  }

  lemma KeepRecv(c: Sys, room: nat)
    requires Inv(c)
    ensures Inv(AfterRecv(c, room)) && Grows(c, AfterRecv(c, room))
  {
    hide R.Recv, HistoryInv, BufferInv, LossInv, PendingInv, NetInv;
    var d := AfterRecv(c, room);
    RecvParts(c, room);
    assert c.delivered + [] == c.delivered;
    assert d.rcv.buf.nextToRead >= d.isn;
    hide StreamInv;
    ReceiverStep(c, d);
  }

  lemma KeepReceiverStatus(c: Sys, status: S.Status)
    requires Inv(c)
    ensures
      var d := c.(rcv := c.rcv.(status := status));
      Inv(d) && Grows(c, d)
  {
    var d := c.(rcv := c.rcv.(status := status));
    ReceiverStep(c, d);
  }

  lemma KeepLose(c: Sys, m: Msg)
    requires Inv(c)
    ensures Inv(c.(net := c.net - {m})) && Grows(c, c.(net := c.net - {m}))
  {
    var d := c.(net := c.net - {m});
    NetKept(c, d);
  }

  // ---------------------------------------------------------------- every step, every run

  lemma StepKeepsInv(c: Sys, e: Event)
    requires Inv(c) && Enabled(c, e) && Undisturbed(c, e)
    ensures Inv(Apply(c, e)) && Grows(c, Apply(c, e))
  {
    hide HistoryInv, BufferInv, LossInv, PendingInv, ObeyInv, SplitInv, AckInv, StreamInv, WindowInv, CrossInv;
    hide Grows, AfterSend, AfterReadResend, AfterFetch, AfterData, AfterSendAck, AfterRecv, Harmful;
    match e
    case Send(data) => KeepSend(c, data);
    case PickResend => KeepPick(c);
    case ReadResend => KeepRead(c);
    case FetchNew(window) => KeepFetch(c, window);
    case ToSender(m, confirm) =>
      assert GoodMsg(c, m);
      match m {
        case LightAck(next) => KeepLightAck(c, next);
        case FullAck(ack, next) => KeepFullAck(c, ack, next, confirm);
        case Nak(info) => KeepNak(c, info);
      }
    case Obey => KeepObey(c);
    case ToReceiver(m) =>
      if m.DataMsg? { KeepData(c, m.packet); } else { KeepAck2(c, m.ack); }
    case Lose(m) => KeepLose(c, m);
    case Exp(giveUp) =>
      if giveUp { KeepSenderStatus(c, S.Broken); } else { KeepExp(c); }
    case SendAck(light, recent) => KeepSendAck(c, light, recent);
    case Recv(room) => KeepRecv(c, room);
    case CloseSender(status) => KeepSenderStatus(c, status);
    case CloseReceiver(status) => KeepReceiverStatus(c, status);
  }

  lemma {:induction false} RunKeepsInv(c: Sys, es: seq<Event>)
    requires Inv(c) && Legal(c, es) && AllUndisturbed(c, es)
    ensures Inv(Run(c, es)) && Grows(c, Run(c, es))
    decreases |es|
  {
    hide Inv;
    if es != [] {
      StepKeepsInv(c, es[0]);
      RunKeepsInv(Apply(c, es[0]), es[1..]);
    }
  }

  /** A retransmission is not stale when it is picked. */
  lemma PickIsFresh(c: Sys)
    requires BufferInv(c.isn, c.history, c.snd) && LossInv(c.isn, c.snd)
    ensures
      var (pick, s') := S.PickResend(c.snd);
      pick.Some? && s'.lastDataAckProcessed <= pick.value.seqNumber ==>
        pick.value.offset == pick.value.seqNumber - s'.lastDataAckProcessed
  {
    PeekMeaning(c.snd.lossList, c.snd.lastDataAckProcessed);
    var popped := PopAfter(c.snd.lossList, c.snd.lastDataAckProcessed).0;
    if popped.Some? {
      assert Scheduled(c.isn, c.snd, popped.value);
      DiffSign(popped.value, c.snd.lastDataAckProcessed);
    }
    hide PopAfter, PeekAfter;
  }

  /** What a step does to the picked retransmission. */
  lemma PickShape(c: Sys, e: Event)
    requires Enabled(c, e)
    ensures !AtSender(e) ==> Apply(c, e).snd == c.snd && Apply(c, e).pending == c.pending
    ensures e.ReadResend? ==> Apply(c, e).pending.None?
    ensures !e.PickResend? && c.pending.None? ==> Apply(c, e).pending.None?
  {
    hide S.PickResend, S.ReadResend, S.FetchNew, S.OnFullAck, S.OnNak, S.OnExp, S.Send, S.OnLightAck;
    hide R.OnData, R.SendAck, R.Recv, R.Admits, R.OnAck2, SB.Segment;
  }

  lemma PickIsHarmless(c: Sys)
    requires BufferInv(c.isn, c.history, c.snd) && LossInv(c.isn, c.snd) && Enabled(c, PickResend)
    ensures !Harmful(Apply(c, PickResend))
  {
    hide BufferInv, LossInv, S.PickResend;
    PickIsFresh(c);
  }

  lemma StepStaysHarmless(c: Sys, e: Event)
    requires Inv(c) && !Harmful(c) && Enabled(c, e) && Sequential(c, e)
    ensures !Harmful(Apply(c, e))
  {
    hide HistoryInv, BufferInv, LossInv, PendingInv, SplitInv, AckInv, StreamInv, WindowInv, CrossInv, NetInv;
    StepKeepsInv(c, e);
    PickShape(c, e);
    if e.PickResend? {
      hide Apply;
      PickIsHarmless(c);
    }
    hide Inv, Apply;
  }

  /** Where the sender's handlers are not interleaved no harmful retransmission is read. */
  lemma {:induction false} SequentialIsUndisturbed(c: Sys, es: seq<Event>)
    requires Inv(c) && !Harmful(c) && Legal(c, es) && AllSequential(c, es)
    ensures AllUndisturbed(c, es)
    decreases |es|
  {
    hide Inv, Harmful;
    if es != [] {
      StepStaysHarmless(c, es[0]);
      StepKeepsInv(c, es[0]);
      SequentialIsUndisturbed(Apply(c, es[0]), es[1..]);
    }
  }

  /** Reached from the start by a run that sends no harmful retransmission. */
  ghost predicate Reachable(k: Config, c: Sys) {
    Continues(Start(k), c)
  }

  /** The invariant holds in every reachable state. */
  lemma ReachableInv(k: Config, c: Sys)
    requires Covered(k) && Reachable(k, c)
    ensures Inv(c) && c.isn == k.isn
  {
    var es :| Legal(Start(k), es) && AllUndisturbed(Start(k), es) && Run(Start(k), es) == c;
    StartInv(k);
    RunKeepsInv(Start(k), es);
  }
}
