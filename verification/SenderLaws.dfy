/**
 What the sender must do, handler by handler: which messages it accepts, how many new packets a
 window lets out, and what an ACK or a timeout leaves scheduled.
 */
module SenderLaws {
  import opened SeqNumber
  import opened OrderedKeys
  import opened Packets
  import opened LossListModel
  import opened Connection
  import opened Invariant
  import opened Recovery
  import S = SenderModel
  import R = ReceiverModel
  import SB = SndBufferModel

  // ---------------------------------------------------------------- accepting a message

  /** The number of blocks of at most `size` bytes that `n` bytes take. */
  function BlocksFor(n: nat, size: nat): nat
    requires size > 0
  {
    (n + size - 1) / size
  }

  lemma {:induction false} ChunkCount(data: seq<Byte>, size: nat)
    requires size > 0
    ensures |SB.Chunks(data, size)| == BlocksFor(|data|, size)
    decreases |data|
  {
    var n := |data|;
    if n > size {
      ChunkCount(data[size..], size);
      var q := (n - size + size - 1) / size;
      assert n + size - 1 == (q + 1) * size + (n - 1) % size by {
        assert n - 1 == q * size + (n - 1) % size;
      }
      ModUnique(n + size - 1, size, q + 1, (n - 1) % size);
      SameQuotient(n + size - 1, size, q + 1, (n - 1) % size);
    } else if n > 0 {
      SameQuotient(n + size - 1, size, 1, n - 1);
    } else {
      SameQuotient(size - 1, size, 0, size - 1);
    }
  }

  lemma SameQuotient(x: int, m: int, q: int, r: int)
    requires 0 <= r < m && x == q * m + r
    ensures x / m == q
  {
    ModUnique(x, m, q, r);
    assert x == (x / m) * m + x % m;
    assert (x / m - q) * m == 0;
    MultipleOutside(x / m - q, m);
  }

  /**
   A message is accepted exactly by a connected socket with room for all its blocks (or if it is
   empty); only then does it join the stream, and nothing else changes.
   */
  lemma SendOutcome(c: Sys, data: seq<Byte>)
    requires Enabled(c, Send(data))
    ensures
      var fits := |c.snd.buf.blocks| + BlocksFor(|data|, c.snd.buf.payloadSize) <= c.snd.buf.maxSize;
      var d := Apply(c, Send(data));
      && (S.Send(c.snd, data).0 <==> c.snd.status == S.Connected && (data == [] || fits))
      && (c.snd.status == S.Connected && data != [] && fits ==>
            && d.messages == c.messages + [data] && |d.history| == |c.history| + BlocksFor(|data|, c.snd.buf.payloadSize)
            && d.snd == c.snd.(buf := d.snd.buf) && |d.snd.buf.blocks| - |c.snd.buf.blocks| == |d.history| - |c.history|)
      && (!(c.snd.status == S.Connected && data != [] && fits) ==> d == c)
  {
    ChunkCount(data, c.snd.buf.payloadSize);
    hide SB.Chunks, BlocksFor;
  }

  // ---------------------------------------------------------------- sending anew

  function Min(a: int, b: int): int {
    if a < b then a else b
  }

  /** The packets numbered from `lo` up to `hi`, excluded. */
  ghost function PacketsBetween(isn: nat, history: seq<Block>, lo: nat, hi: nat): set<Msg>
    requires isn <= lo <= hi <= isn + |history|
  {
    set x: nat | lo <= x < hi :: DataMsg(PacketOf(isn, history, x))
  }

  /**
   Before any wrap: with the last number sent more than the window ahead of the last ACK nothing
   goes out; otherwise the next blocks of the history do, up to 100, each under its own number.
   */
  lemma FetchOutcome(c: Sys, w: int)
    requires Inv(c) && Enabled(c, FetchNew(w)) && c.isn + |c.history| <= SEQ_MOD
    ensures
      var d := Apply(c, FetchNew(w));
      var n := if c.snd.currSnd - c.snd.lastAckReceived > w then 0 else Min(100, c.isn + |c.history| - Top(c.snd));
      && c.isn <= Top(c.snd) <= Top(d.snd) == Top(c.snd) + n <= c.isn + |c.history| && d.snd.currSnd == Top(d.snd) - 1
      && d.net == c.net + PacketsBetween(c.isn, c.history, Top(c.snd), Top(d.snd))
      && d == c.(snd := c.snd.(currSnd := d.snd.currSnd, buf := c.snd.buf.(position := d.snd.buf.position)), net := d.net)
  {
    hide HistoryInv, BufferInv, LossInv, PendingInv, ObeyInv, AckInv, StreamInv, WindowInv, NetInv, S.FetchNew;
    AckBelowTop(c);
    hide SplitInv, CrossInv;
    FetchLaw(c.isn, c.history, c.snd, w);
    hide Inv, PacketsBetween;
  }

  lemma AckBelowTop(c: Sys)
    requires SplitInv(c.isn, c.received, c.rcv) && CrossInv(c.isn, c.received, c.snd, c.rcv)
    requires BufferInv(c.isn, c.history, c.snd)
    ensures c.snd.lastAckReceived <= Top(c.snd)
  {
    ReceivedWasSent(c.isn, c.received, c.snd, c.rcv, c.snd.lastAckReceived);
  }

  lemma FetchLaw(isn: nat, history: seq<Block>, s: S.Snd, w: int)
    requires BufferInv(isn, history, s) && isn + |history| <= SEQ_MOD && s.lastAckReceived <= Top(s)
    requires 0 <= s.buf.position <= |s.buf.blocks|
    ensures
      var (packets, s') := S.FetchNew(s, w);
      var n := if s.currSnd - s.lastAckReceived > w then 0 else Min(100, isn + |history| - Top(s));
      && isn <= Top(s) <= Top(s') == Top(s) + n <= isn + |history| && s'.currSnd == Top(s') - 1
      && s' == s.(currSnd := s'.currSnd, buf := s.buf.(position := s'.buf.position))
      && DataMsgs(packets) == PacketsBetween(isn, history, Top(s), Top(s'))
  {
    hide S.FetchNew;
    FetchCount(isn, history, s, w);
    FetchKeepsBuffer(isn, history, s, w);
    FetchNumbers(isn, history, s, w);
    hide PacketsBetween;
    SamePackets(S.FetchNew(s, w).0, isn, history, Top(s));
  }

  lemma FetchCount(isn: nat, history: seq<Block>, s: S.Snd, w: int)
    requires BufferInv(isn, history, s) && isn + |history| <= SEQ_MOD && s.lastAckReceived <= Top(s)
    ensures |S.FetchNew(s, w).0| ==
      if s.currSnd - s.lastAckReceived > w then 0 else Min(100, isn + |history| - Top(s))
  {
    DiffSign(s.currSnd, s.lastAckReceived);
    hide Diff;
  }

  lemma FetchNumbers(isn: nat, history: seq<Block>, s: S.Snd, w: int)
    requires BufferInv(isn, history, s) && isn + |history| <= SEQ_MOD
    ensures
      var packets := S.FetchNew(s, w).0;
      forall i :: 0 <= i < |packets| ==> Top(s) + i - isn < |history| && packets[i] == AsPacket(history[Top(s) + i - isn], Top(s) + i)
  {
    var packets := S.FetchNew(s, w).0;
    forall i | 0 <= i < |packets|
      ensures Top(s) + i - isn < |history| && packets[i] == AsPacket(history[Top(s) + i - isn], Top(s) + i)
    {
      FetchNumber(s, i);
      assert packets[i] == AsPacket(s.buf.blocks[s.buf.position + i], Add(Add(s.currSnd, 1), i));
    }
  }

  lemma SamePackets(packets: seq<Packet>, isn: nat, history: seq<Block>, lo: nat)
    requires isn <= lo && lo + |packets| <= isn + |history|
    requires forall i :: 0 <= i < |packets| ==> packets[i] == AsPacket(history[lo + i - isn], lo + i)
    ensures DataMsgs(packets) == PacketsBetween(isn, history, lo, lo + |packets|)
  {
    forall m | m in PacketsBetween(isn, history, lo, lo + |packets|)
      ensures m in DataMsgs(packets)
    {
      var x: nat :| lo <= x < lo + |packets| && m == DataMsg(PacketOf(isn, history, x));
      assert packets[x - lo] in packets;
    }
    forall p | p in packets
      ensures DataMsg(p) in PacketsBetween(isn, history, lo, lo + |packets|)
    {
      var i :| 0 <= i < |packets| && packets[i] == p;
      assert p == PacketOf(isn, history, lo + i);
    }
  }

  /** A full window holds everything back, also after a wrap. */
  lemma WindowHolds(s: S.Snd, w: int)
    requires 0 <= s.buf.position <= |s.buf.blocks| && Diff(s.currSnd, s.lastAckReceived) > w
    ensures S.FetchNew(s, w) == ([], s)
  {
  }

  /** A light ACK that arrives moves the last ACK forward, releases nothing and is not answered. */
  lemma LightAckOutcome(c: Sys, next: nat, confirm: bool)
    requires Inv(c) && LightAck(next) in c.net && c.snd.status.IsAlive()
    ensures Enabled(c, ToSender(LightAck(next), confirm))
    ensures
      var last := if next > c.snd.lastAckReceived then next else c.snd.lastAckReceived;
      Apply(c, ToSender(LightAck(next), confirm)) == c.(snd := c.snd.(lastAckReceived := last))
  {
    hide HistoryInv, BufferInv, LossInv, PendingInv, ObeyInv, SplitInv, AckInv, StreamInv, WindowInv, S.OnLightAck;
    assert GoodMsg(c, LightAck(next));
    LightAckParts(c, next);
  }

  /** A full ACK that arrives is answered at once if it is to be, and otherwise only noted. */
  lemma FullAckOutcome(c: Sys, ack: nat, next: nat, confirm: bool)
    requires FullAck(ack, next) in c.net && c.snd.status.IsAlive() && c.obeying.None?
    ensures Enabled(c, ToSender(FullAck(ack, next), confirm))
    ensures
      var d := Apply(c, ToSender(FullAck(ack, next), confirm));
      d.snd == c.snd && d.obeying == Some(next) && d.net == c.net + if confirm then {Ack2(ack)} else {}
  {
  }

  // ---------------------------------------------------------------- what stays scheduled

  /** A full ACK takes off the schedule exactly the numbers it releases. */
  lemma ObeySchedule(c: Sys, x: nat)
    requires Inv(c) && Enabled(c, Obey)
    ensures Has(Apply(c, Obey).snd.lossList, x) <==>
      Has(c.snd.lossList, x) && !(c.snd.lastDataAckProcessed <= x < c.obeying.value)
  {
    hide HistoryInv, PendingInv, SplitInv, StreamInv, WindowInv, CrossInv, NetInv, Has, WellFormed;
    var s, next := c.snd, c.obeying.value;
    DiffSign(next, s.lastDataAckProcessed);
    if next > s.lastDataAckProcessed {
      RemoveAllMeaning(s.lossList, s.lastDataAckProcessed, next - 1);
    }
    hide Diff, RemoveAll, SB.AckData;
  }

  /** Before any wrap a timeout acts exactly when something is unacknowledged and nothing scheduled. */
  lemma ExpOutcome(c: Sys, x: nat)
    requires Inv(c) && Enabled(c, Exp(false)) && Top(c.snd) <= SEQ_MOD
    ensures
      var acts := c.snd.lastAckReceived < Top(c.snd) && c.snd.lossList == map[];
      var d := Apply(c, Exp(false));
      && d == c.(snd := c.snd.(lossList := d.snd.lossList))
      && (!acts ==> d == c)
      && (acts ==> (Has(d.snd.lossList, x) <==> c.snd.lastAckReceived <= x < Top(c.snd)))
  {
    hide HistoryInv, BufferInv, LossInv, PendingInv, ObeyInv, AckInv, StreamInv, WindowInv, NetInv, S.OnExp;
    AckBelowTop(c);
    hide SplitInv, CrossInv;
    ExpLaw(c.isn, c.history, c.snd, x);
    hide Inv, Has;
  }

  lemma ExpLaw(isn: nat, history: seq<Block>, s: S.Snd, x: nat)
    requires BufferInv(isn, history, s) && Top(s) <= SEQ_MOD && s.lastAckReceived <= Top(s)
    ensures
      var acts := s.lastAckReceived < Top(s) && s.lossList == map[];
      && S.OnExp(s) == s.(lossList := S.OnExp(s).lossList)
      && (!acts ==> S.OnExp(s) == s)
      && (acts ==> (Has(S.OnExp(s).lossList, x) <==> s.lastAckReceived <= x < Top(s)))
  {
    hide Insert, Has;
    if s.lossList == map[] && s.lastAckReceived < Top(s) {
      NothingHeld(x);
      InsertMeaning(map[], s.lastAckReceived, s.currSnd);
      hide WellFormed;
    }
  }

  lemma NothingHeld(x: nat)
    ensures !Has(map[], x)
  {
  }

  /** With an empty buffer, everything acknowledged or something scheduled a timeout does nothing, in any state. */
  lemma ExpIdle(s: S.Snd)
    ensures s.buf.blocks == [] || s.lastAckReceived == Add(s.currSnd, 1) || s.lossList != map[] ==> S.OnExp(s) == s
  {
  }

  // ---------------------------------------------------------------- after the end

  lemma DeadStep(c: Sys, e: Event)
    requires Enabled(c, e) && !c.snd.status.IsAlive()
    ensures
      var d := Apply(c, e);
      !d.snd.status.IsAlive() && d.messages == c.messages && d.history == c.history && d.snd.currSnd == c.snd.currSnd
  {
    hide S.ReadResend, R.OnData, R.SendAck, R.Recv, R.Admits, R.OnAck2, SB.Segment, RemoveAll, SB.AckData;
  }

  /**
   A sender that gave up at a timeout, or was closed or broken, stays dead whatever happens: it
   accepts nothing more and sends no new packet.
   */
  lemma {:induction false} DeadSender(c: Sys, es: seq<Event>)
    requires Legal(c, es) && !c.snd.status.IsAlive()
    ensures
      var d := Run(c, es);
      !d.snd.status.IsAlive() && d.messages == c.messages && d.history == c.history && d.snd.currSnd == c.snd.currSnd
    decreases |es|
  {
    hide Apply, Enabled;
    if es != [] {
      DeadStep(c, es[0]);
      DeadSender(Apply(c, es[0]), es[1..]);
    }
  }

  /** Giving up at a timeout is such an end. */
  lemma GivingUp(c: Sys, es: seq<Event>)
    requires Enabled(c, Exp(true)) && Legal(Apply(c, Exp(true)), es)
    ensures
      var d := Run(Apply(c, Exp(true)), es);
      !d.snd.status.IsAlive() && d.messages == c.messages && d.snd.currSnd == c.snd.currSnd
  {
    hide Run, Legal;
    DeadSender(Apply(c, Exp(true)), es);
  }
}
