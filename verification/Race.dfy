/**
 What can happen between two sections of a handler. `next_data_packets` computes the place of the
 picked packet in the send buffer under one lock and reads the buffer under another; full ACKs
 that shift the buffer in between make it send another block. The ACK handler sends its ACK2
 before it releases anything. This module says exactly which block is sent and when that does
 harm, and follows a run of either kind.
 */
module Race {
  import opened SeqNumber
  import opened OrderedKeys
  import opened Packets
  import opened LossListModel
  import opened Connection
  import opened Invariant
  import S = SenderModel
  import R = ReceiverModel
  import SB = SndBufferModel
  import RB = RcvBufferModel
  import W = AckWindowModel

  /**
   However many ACKs came in between: the read sends, under the picked number, the block at the
   computed offset from what is released by then, if there is one.
   */
  lemma DisturbedRead(c: Sys)
    requires Inv(c) && c.pending.Some?
    ensures
      var Resend(x, offset) := c.pending.value;
      var place := c.snd.lastDataAckProcessed - c.isn + offset;
      S.ReadResend(c.snd, c.pending.value) ==
      if offset >= 0 && place < |c.history| then Some(AsPacket(c.history[place], x)) else None
  {
    hide HistoryInv, LossInv, PendingInv, SplitInv, AckInv, StreamInv, WindowInv, CrossInv, NetInv, ObeyInv;
  }

  /** A pick that is not stale sends the block its number stands for. */
  lemma UndisturbedRead(c: Sys)
    requires Inv(c) && c.pending.Some? && c.snd.lastDataAckProcessed <= c.pending.value.seqNumber && !Stale(c)
    requires S.ReadResend(c.snd, c.pending.value).Some?
    ensures
      var x := c.pending.value.seqNumber;
      && x - c.isn < |c.history|
      && S.ReadResend(c.snd, c.pending.value) == Some(AsPacket(c.history[x - c.isn], x))
  {
    hide HistoryInv, LossInv, SplitInv, AckInv, StreamInv, WindowInv, CrossInv, NetInv, ObeyInv;
  }

  /**
   A read that finds a block does harm exactly when the receiver has neither received nor
   acknowledged the number and the bytes found differ from those the number stands for.
   */
  lemma HarmfulIff(c: Sys)
    requires Inv(c) && c.pending.Some? && S.ReadResend(c.snd, c.pending.value).Some?
    ensures
      var Resend(x, offset) := c.pending.value;
      var place := c.snd.lastDataAckProcessed - c.isn + offset;
      && 0 <= place < |c.history| && x - c.isn < |c.history|
      && (c.rcv.lastSentAck <= x ==> c.isn <= x)
      && (Harmful(c) <==>
            c.rcv.lastSentAck <= x && x !in c.received && c.history[place].data != c.history[x - c.isn].data)
  {
    hide HistoryInv, LossInv, SplitInv, StreamInv, WindowInv, NetInv, ObeyInv;
  }

  /** The read keeps the invariant if and only if it does no harm. */
  lemma ReadIsSafeIff(c: Sys)
    requires Inv(c) && c.pending.Some?
    ensures Inv(Apply(c, ReadResend)) <==> !Harmful(c)
  {
    if Harmful(c) {
      HarmBreaks(c);
    } else {
      hide Inv, Apply;
      StepKeepsInv(c, ReadResend);
    }
  }

  lemma HarmBreaks(c: Sys)
    requires Inv(c) && Harmful(c)
    ensures !Inv(Apply(c, ReadResend))
  {
    hide HistoryInv, BufferInv, LossInv, PendingInv, SplitInv, AckInv, StreamInv, WindowInv, CrossInv, S.ReadResend;
    HarmIsBad(c);
    var d := Apply(c, ReadResend);
    var m := DataMsg(S.ReadResend(c.snd, c.pending.value).value);
    assert GoodMsg(d, m) ==> GoodMsg(c, m);
    assert m in d.net && (NetInv(d) ==> GoodMsg(d, m));
  }

  // ---------------------------------------------------------------- a run that delivers the wrong bytes

  const A := Block([65], 0, false, First)
  const B := Block([66], 0, false, Middle)
  const C := Block([67], 0, false, Last)
  const TWO: Spans := map[2 := Span(2, 2)]
  const CONFIG := Config(1, 4, 1, 4, true)

  function SndAt(lda: nat, currSnd: nat, loss: Spans, blocks: seq<Block>, position: int): S.Snd {
    S.Snd(S.Connected, lda, lda, currSnd, loss, SB.SndBuf(4, 1, blocks, 1, position))
  }

  function RcvAt(sentAck: nat, currRcv: nat, loss: Spans, ackSeq: nat, window: W.AckWin,
                 packets: map<nat, Packet>): R.Rcv {
    R.Rcv(S.Connected, sentAck, currRcv, loss, 1, ackSeq, window, RB.RcvBuf(4, packets, 1, sentAck))
  }

  function SysAt(snd: S.Snd, pending: Option<S.Resend>, rcv: R.Rcv, net: set<Msg>, received: set<nat>, acks: seq<nat>): Sys {
    Sys(1, snd, pending, None, rcv, net, [[65, 66, 67]], [A, B, C], received, [], acks)
  }

  const W0: W.AckWin := W.Empty(1024)
  const W1: W.AckWin := W.Store(W0, 2, 1)
  const D1: Msg := DataMsg(AsPacket(A, 1))
  const D2: Msg := DataMsg(AsPacket(B, 2))
  const D3: Msg := DataMsg(AsPacket(C, 3))
  const P1: map<nat, Packet> := map[1 := AsPacket(A, 1)]
  const P13: map<nat, Packet> := map[1 := AsPacket(A, 1), 3 := AsPacket(C, 3)]

  const C1: Sys := SysAt(SndAt(1, 0, map[], [A, B, C], 0), None, RcvAt(1, 0, map[], 0, W0, map[]), {}, {}, [])
  const C2: Sys := C1.(snd := SndAt(1, 3, map[], [A, B, C], 3), net := {D1, D2, D3})
  const C3: Sys := C2.(rcv := RcvAt(1, 1, map[], 0, W0, P1), received := {1})
  const C4: Sys := C3.(rcv := RcvAt(1, 3, TWO, 0, W0, P13), received := {1, 3}, net := C2.net + {Nak([2])})
  const C5: Sys := C4.(rcv := RcvAt(2, 3, TWO, 1, W1, P13), net := C4.net + {FullAck(1, 2)}, acks := [2])
  const C6: Sys := C5.(snd := SndAt(1, 3, TWO, [A, B, C], 3))
  const C7: Sys := C5.(pending := Some(S.Resend(2, 1)))
  const C7B: Sys := C7.(obeying := Some(2))
  const C8: Sys := C7.(snd := SndAt(2, 3, map[], [B, C], 2))

  lemma InsertTwo()
    ensures Insert(map[], 2, 2) == TWO && PeekAfter(TWO, 4) == Some(2) && PeekAfter(TWO, 1) == Some(2)
    ensures Remove(TWO, 2) == map[] && RemoveAll(map[], 1, 1) == map[]
  {
    var none: Spans := map[];
    assert KeysIn(none.Keys, 3, 3) == [];
    assert Without(none, []) == none;
    FloorMeaning(none.Keys, 2);
    assert WellFormed(TWO);
    assert forall x :: Has(TWO, x) ==> x == 2;
    PeekMeaning(TWO, 4);
    PeekMeaning(TWO, 1);
    assert 2 in TWO && Has(TWO, 2);
    RemoveMeaning(TWO, 2);
    PeekMeaning(Remove(TWO, 2), 0);
    RemoveAllMeaning(none, 1, 1);
    assert forall x :: !Has(none, x);
    PeekMeaning(RemoveAll(none, 1, 1), 0);
  }

  lemma SegmentThree()
    ensures SB.Segment([65, 66, 67], 1, 0, false) == [A, B, C]
  {
    var data: seq<Byte> := [65, 66, 67];
    assert data[..1] == [65] && data[1..] == [66, 67];
    var rest: seq<Byte> := [66, 67];
    assert rest[..1] == [66] && rest[1..] == [67];
    assert SB.Chunks([67], 1) == [[67]];
    assert SB.Chunks([66, 67], 1) == [[66]] + [[67]];
    assert SB.Chunks(data, 1) == [[65], [66], [67]];
  }

  lemma Step1()
    ensures Enabled(Start(CONFIG), Send([65, 66, 67])) && Apply(Start(CONFIG), Send([65, 66, 67])) == C1
  {
    SegmentThree();
  }

  lemma Step2()
    ensures Enabled(C1, FetchNew(16)) && Apply(C1, FetchNew(16)) == C2
  {
    var (packets, snd) := S.FetchNew(C1.snd, 16);
    assert packets == [AsPacket(A, 1), AsPacket(B, 2), AsPacket(C, 3)];
    assert DataMsgs(packets) == {D1, D2, D3} by {
      assert packets[0] in packets && packets[1] in packets && packets[2] in packets;
    }
  }

  const WRONG: Packet := AsPacket(C, 2)
  const C9: Sys := C8.(pending := None, net := C8.net + {DataMsg(WRONG)})
  const C10: Sys := C9.(rcv := RcvAt(2, 3, map[], 1, W1, P13[2 := WRONG]), received := {1, 2, 3})
  const C11: Sys := C10.(rcv := RcvAt(4, 3, map[], 2, W.Store(W1, 4, 2), P13[2 := WRONG]),
                         net := C10.net + {FullAck(2, 4)}, acks := [2, 4])

  lemma Step3()
    ensures Enabled(C2, ToReceiver(D1)) && Apply(C2, ToReceiver(D1)) == C3
  {
  }

  lemma Step4()
    ensures Enabled(C3, ToReceiver(D3)) && Apply(C3, ToReceiver(D3)) == C4
  {
    InsertTwo();
    hide Insert;
    assert C3.received + {3} == {1, 3};
  }

  lemma Step5()
    ensures Enabled(C4, SendAck(false, false)) && Apply(C4, SendAck(false, false)) == C5
  {
    InsertTwo();
    hide PeekAfter, W.Store;
  }

  lemma Step6()
    ensures Enabled(C5, ToSender(Nak([2]), false)) && Apply(C5, ToSender(Nak([2]), false)) == C6
  {
    InsertTwo();
    hide Insert;
    assert [2][1..] == [];
  }

  lemma Step7()
    ensures Enabled(C6, PickResend) && Apply(C6, PickResend) == C7
  {
    InsertTwo();
    hide PeekAfter, Remove;
  }

  lemma Step8()
    ensures Enabled(C7, ToSender(FullAck(1, 2), false)) && Apply(C7, ToSender(FullAck(1, 2), false)) == C7B
    ensures Enabled(C7B, Obey) && Apply(C7B, Obey) == C8
  {
    InsertTwo();
    hide RemoveAll;
    assert [A, B, C][1..] == [B, C];
  }

  lemma Step9()
    ensures Enabled(C8, ReadResend) && Apply(C8, ReadResend) == C9 && Harmful(C8)
  {
  }

  lemma Step10()
    ensures Enabled(C9, ToReceiver(DataMsg(WRONG))) && Apply(C9, ToReceiver(DataMsg(WRONG))) == C10
  {
    InsertTwo();
    hide Remove, Insert;
    assert C9.received + {2} == {1, 2, 3};
  }

  lemma AckFour(r: R.Rcv)
    requires r == RcvAt(2, 3, map[], 1, W1, r.buf.packets)
    ensures R.SendAck(r, false, false) == (RcvAt(4, 3, map[], 2, W.Store(W1, 4, 2), r.buf.packets), Some(R.Full(2, 4)))
  {
    PeekMeaning(map[], 4);
    assert PeekAfter(r.lossList, 4) == None;
    hide PeekAfter;
    assert R.NextMissing(r) == 4;
    hide R.NextMissing, W.Store;
  }

  lemma Step11()
    ensures Enabled(C10, SendAck(false, false)) && Apply(C10, SendAck(false, false)) == C11
  {
    hide R.SendAck;
    AckFour(C10.rcv);
    assert [2] + [4] == [2, 4];
    assert Apply(C10, SendAck(false, false)).rcv == C11.rcv;
    assert Apply(C10, SendAck(false, false)).net == C11.net;
    hide W.Store;
  }

  lemma ReadThree(packets: map<nat, Packet>)
    requires 1 in packets && 2 in packets && 3 in packets
    requires packets[1].data == [65] && packets[2].data == [67] && packets[3].data == [67]
    ensures RB.FitCount(packets, [1, 2, 3], 10) == 3 && RB.Payload(packets, [1, 2, 3]) == [65, 67, 67]
  {
    assert [2, 3] == [1, 2, 3][1..] && [3] == [2, 3][1..] && [3][1..] == [];
    assert RB.FitCount(packets, [3], 8) == 1;
    assert RB.FitCount(packets, [2, 3], 9) == 2;
    assert RB.Payload(packets, [3]) == [67];
    assert RB.Payload(packets, [2, 3]) == [67] + [67];
  }

  lemma Step12()
    ensures Enabled(C11, Recv(10)) && Apply(C11, Recv(10)).delivered == [65, 67, 67]
    ensures Apply(C11, Recv(10)).messages == [[65, 66, 67]]
  {
    var b := C11.rcv.buf;
    ContiguousKeys(b.packets.Keys, 1, 4);
    assert RB.Readable(b) == [1, 2, 3];
    ReadThree(b.packets);
    assert [1, 2, 3][..3] == [1, 2, 3];
    hide RB.FitCount, RB.Payload, KeysIn;
  }

  lemma RaceEnds() returns (d: Sys)
    ensures CanReach(C8, d) && d.messages == [[65, 66, 67]] && d.delivered == [65, 67, 67]
  {
    d := Apply(C11, Recv(10));
    Step9(); Step10(); Step11(); Step12();
    hide Enabled, Apply, CanReach;
    ReachSelf(d);
    ReachStep(C11, Recv(10), d);
    ReachStep(C10, SendAck(false, false), d);
    ReachStep(C9, ToReceiver(DataMsg(WRONG)), d);
    ReachStep(C8, ReadResend, d);
  }

  lemma RaceGoesOn(d: Sys)
    requires CanReach(C8, d)
    ensures CanReach(C4, d)
  {
    Step5(); Step6(); Step7(); Step8();
    hide Enabled, Apply, CanReach;
    ReachStep(C7B, Obey, d);
    ReachStep(C7, ToSender(FullAck(1, 2), false), d);
    ReachStep(C6, PickResend, d);
    ReachStep(C5, ToSender(Nak([2]), false), d);
    ReachStep(C4, SendAck(false, false), d);
  }

  lemma RaceBegins(d: Sys)
    requires CanReach(C4, d)
    ensures CanReach(Start(CONFIG), d)
  {
    Step1(); Step2(); Step3(); Step4();
    hide Enabled, Apply, CanReach;
    ReachStep(C3, ToReceiver(D3), d);
    ReachStep(C2, ToReceiver(D1), d);
    ReachStep(C1, FetchNew(16), d);
    ReachStep(Start(CONFIG), Send([65, 66, 67]), d);
  }

  /**
   The stream does depend on that interleaving: a run that sends "ABC", loses B, picks its
   retransmission and then takes in the ACK of A, delivers "ACC".
   */
  lemma RaceCorruptsStream() returns (d: Sys)
    ensures CanReach(Start(CONFIG), d) && d.messages == [[65, 66, 67]] && d.delivered == [65, 67, 67]
    ensures !(d.delivered <= Flatten(d.messages))
  {
    d := RaceEnds();
    RaceGoesOn(d);
    RaceBegins(d);
    hide CanReach;
    assert Flatten(d.messages)[1] == 66;
  }

  // ---------------------------------------------------------------- a run that confirms before it releases

  const F6: Sys := C5.(obeying := Some(2), net := C5.net + {Ack2(1)})

  lemma EarlySteps()
    ensures Enabled(C5, ToSender(FullAck(1, 2), true)) && Apply(C5, ToSender(FullAck(1, 2), true)) == F6
    ensures Enabled(F6, ToReceiver(Ack2(1)))
    ensures Apply(F6, ToReceiver(Ack2(1))) == F6.(rcv := F6.rcv.(lastAck2 := 2))
  {
    assert W.Get(W1, 1) == Some(2);
    hide W.Get, W.Store;
  }

  /**
   While an ACK is being obeyed the confirmed number can be ahead of what the sender has
   released: its ACK2 arrives before the blocks are gone.
   */
  lemma ConfirmedEarly() returns (d: Sys)
    ensures CanReach(Start(CONFIG), d)
    ensures d.obeying == Some(2) && d.rcv.lastAck2 == 2 && d.snd.lastDataAckProcessed == 1
  {
    d := F6.(rcv := F6.rcv.(lastAck2 := 2));
    EarlySteps();
    Step5();
    hide Enabled, Apply, CanReach;
    ReachSelf(d);
    ReachStep(F6, ToReceiver(Ack2(1)), d);
    ReachStep(C5, ToSender(FullAck(1, 2), true), d);
    ReachStep(C4, SendAck(false, false), d);
    RaceBegins(d);
  }
}
