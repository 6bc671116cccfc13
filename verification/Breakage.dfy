/**
 When an honest peer breaks a sender. Before any number wraps nothing does; afterwards the sender
 compares what it is told with a number that has started over, and may take an ACK or a NAK of
 its own packets for a forgery. This module says exactly when, and follows one such run.
 */
module Breakage {
  import opened SeqNumber
  import opened OrderedKeys
  import opened Packets
  import opened LossListModel
  import opened Connection
  import opened Invariant
  import opened LossReports
  import S = SenderModel
  import R = ReceiverModel
  import SB = SndBufferModel
  import RB = RcvBufferModel
  import W = AckWindowModel

  // ---------------------------------------------------------------- the exact conditions

  /** Obeying a full ACK breaks a connected sender exactly when the last number has wrapped below it. */
  lemma FullAckBreaksIff(c: Sys)
    requires Inv(c) && c.snd.status == S.Connected && c.obeying.Some?
    ensures
      var next := c.obeying.value;
      Apply(c, Obey).snd.status == S.Broken <==>
      Top(c.snd) > SEQ_MOD && next > c.snd.currSnd + 1 && !(next == SEQ_MAX && c.snd.currSnd == 0)
  {
    hide HistoryInv, LossInv, PendingInv, StreamInv, WindowInv, NetInv;
    ReceivedWasSent(c.isn, c.received, c.snd, c.rcv, c.obeying.value);
    DiffSign(c.obeying.value, c.snd.currSnd);
    hide RemoveAll, SB.AckData, Diff, Below, SplitInv;
  }

  lemma RangeBreaksIff(s: S.Snd, a: nat, b: nat)
    requires a <= b <= SEQ_MAX && s.currSnd <= SEQ_MAX && s.status == S.Connected
    ensures S.OnNak(s, R.GapInfo(a, b)).status == S.Broken <==> b > s.currSnd
  {
    NakEffect(s, a, b);
    DiffSign(a, b);
    DiffSign(b, s.currSnd);
    hide Diff, S.NakLoop, Insert;
  }

  /** The loss information lists a number above `n`. */
  ghost predicate ListsAbove(info: seq<nat>, n: nat) {
    exists x :: Listed(info, x) && x > n
  }

  lemma GapListsAbove(a: nat, b: nat, n: nat)
    requires a <= b <= SEQ_MAX
    ensures ListsAbove(R.GapInfo(a, b), n) <==> b > n
  {
    hide R.GapInfo;
    var info := R.GapInfo(a, b);
    if ListsAbove(info, n) {
      var x :| Listed(info, x) && x > n;
      GapIsListed(a, b, x);
    }
    GapIsListed(a, b, b);
    assert b > n ==> Listed(info, b) && b > n;
  }

  /** A NAK breaks a connected sender exactly when it lists a number the last one has wrapped below. */
  lemma NakBreaksIff(c: Sys, info: seq<nat>)
    requires Inv(c) && c.snd.status == S.Connected && Nak(info) in c.net
    ensures S.OnNak(c.snd, info).status == S.Broken <==> Top(c.snd) > SEQ_MOD && ListsAbove(info, c.snd.currSnd)
  {
    hide HistoryInv, LossInv, PendingInv, StreamInv, WindowInv, AckInv, S.OnNak, ListsAbove, R.GapInfo;
    assert GoodMsg(c, Nak(info));
    var a, b :| c.isn <= a <= b < c.rcv.currRcv && info == R.GapInfo(a, b);
    RangeBreaksIff(c.snd, a, b);
    GapListsAbove(a, b, c.snd.currSnd);
    assert b > c.snd.currSnd ==> Top(c.snd) > SEQ_MOD;
  }

  // ---------------------------------------------------------------- a run that breaks the sender

  const LAST: nat := SEQ_MAX - 1
  const CONFIG := Config(LAST, 8, 1, 8, true)
  const A := Block([65], 0, false, First)
  const B := Block([66], 0, false, Middle)
  const C := Block([67], 0, false, Middle)
  const D := Block([68], 0, false, Last)
  const P := AsPacket(A, LAST)
  const SENT: set<Msg> :=
    {DataMsg(P), DataMsg(AsPacket(B, SEQ_MAX)), DataMsg(AsPacket(C, 0)), DataMsg(AsPacket(D, 1))}

  function SndAt(currSnd: nat, position: int): S.Snd {
    S.Snd(S.Connected, LAST, LAST, currSnd, map[], SB.SndBuf(8, 1, [A, B, C, D], 1, position))
  }

  function RcvAt(sentAck: nat, currRcv: nat, ackSeq: nat, window: W.AckWin, packets: map<nat, Packet>): R.Rcv {
    R.Rcv(S.Connected, sentAck, currRcv, map[], LAST, ackSeq, window, RB.RcvBuf(8, packets, LAST, sentAck))
  }

  const W0: W.AckWin := W.Empty(1024)
  const B1: Sys := Sys(LAST, SndAt(LAST - 1, 0), None, None, RcvAt(LAST, LAST - 1, 0, W0, map[]), {},
                       [[65, 66, 67, 68]], [A, B, C, D], {}, [], [])
  const B2: Sys := B1.(snd := SndAt(1, 4), net := SENT)
  const B3: Sys := B2.(rcv := RcvAt(LAST, LAST, 0, W0, map[LAST := P]), received := {LAST})
  const B4: Sys := B3.(rcv := RcvAt(SEQ_MAX, LAST, 1, W.Store(W0, SEQ_MAX, 1), map[LAST := P]),
                       net := SENT + {FullAck(1, SEQ_MAX)}, acks := [SEQ_MAX])
  const B5: Sys := B4.(obeying := Some(SEQ_MAX))

  lemma SegmentFour()
    ensures SB.Segment([65, 66, 67, 68], 1, 0, false) == [A, B, C, D]
  {
    var data: seq<Byte> := [65, 66, 67, 68];
    var three: seq<Byte> := [66, 67, 68];
    var two: seq<Byte> := [67, 68];
    assert data[..1] == [65] && data[1..] == three;
    assert three[..1] == [66] && three[1..] == two;
    assert two[..1] == [67] && two[1..] == [68];
    assert SB.Chunks([68], 1) == [[68]];
    assert SB.Chunks(two, 1) == [[67]] + [[68]];
    assert SB.Chunks(three, 1) == [[66]] + [[67], [68]];
    assert SB.Chunks(data, 1) == [[65], [66], [67], [68]];
  }

  lemma Break1()
    ensures Enabled(Start(CONFIG), Send([65, 66, 67, 68])) && Apply(Start(CONFIG), Send([65, 66, 67, 68])) == B1
  {
    SegmentFour();
  }

  lemma Break2()
    ensures Enabled(B1, FetchNew(16)) && Apply(B1, FetchNew(16)) == B2
  {
    var (packets, snd) := S.FetchNew(B1.snd, 16);
    assert packets == [P, AsPacket(B, SEQ_MAX), AsPacket(C, 0), AsPacket(D, 1)];
    assert DataMsgs(packets) == SENT by {
      assert packets[0] in packets && packets[1] in packets && packets[2] in packets && packets[3] in packets;
    }
  }

  lemma Break3()
    ensures Enabled(B2, ToReceiver(DataMsg(P))) && Apply(B2, ToReceiver(DataMsg(P))) == B3
  {
    hide Remove;
    assert B2.received + {LAST} == {LAST};
  }

  lemma Break4()
    ensures Enabled(B3, SendAck(false, false)) && Apply(B3, SendAck(false, false)) == B4
  {
    PeekMeaning(map[], SEQ_MAX);
    assert PeekAfter(B3.rcv.lossList, SEQ_MAX) == None;
    hide PeekAfter;
    assert R.NextMissing(B3.rcv) == SEQ_MAX;
    hide R.NextMissing, W.Store;
  }

  lemma Break5()
    ensures Enabled(B4, ToSender(FullAck(1, SEQ_MAX), false)) && Apply(B4, ToSender(FullAck(1, SEQ_MAX), false)) == B5
    ensures Enabled(B5, Obey) && Apply(B5, Obey).snd.status == S.Broken
  {
    hide RemoveAll;
  }

  /**
   Four blocks sent from the number before the maximum on leave 1 as the last number sent; the
   honest acknowledgement of the first of them, carrying the maximum, breaks the sender.
   */
  lemma HonestAckBreaks() returns (d: Sys)
    ensures CanReach(Start(CONFIG), d) && d.snd.status == S.Broken
  {
    Break1(); Break2(); Break3(); Break4(); Break5();
    d := Apply(B5, Obey);
    hide Enabled, Apply, CanReach;
    ReachSelf(d);
    ReachStep(B5, Obey, d);
    ReachStep(B4, ToSender(FullAck(1, SEQ_MAX), false), d);
    ReachStep(B3, SendAck(false, false), d);
    ReachStep(B2, ToReceiver(DataMsg(P)), d);
    ReachStep(B1, FetchNew(16), d);
    ReachStep(Start(CONFIG), Send([65, 66, 67, 68]), d);
  }
}
