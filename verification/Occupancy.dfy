/**
 How full the receive buffer gets. The admission test of `process_data` compares the free slots
 with the offset from the last ACK, so a packet at offset 0 passes it even when no slot is free.
 */
module Occupancy {
  import opened SeqNumber
  import opened OrderedKeys
  import opened Packets
  import opened LossListModel
  import opened Connection
  import S = SenderModel
  import R = ReceiverModel
  import SB = SndBufferModel
  import RB = RcvBufferModel
  import W = AckWindowModel

  /** The buffer holds no more packets than it is configured for. */
  ghost predicate Fits(c: Sys) {
    |c.rcv.buf.packets| <= c.rcv.buf.maxSize
  }

  /** A packet at offset 0 that is new to a full buffer. */
  predicate Overfills(c: Sys, e: Event) {
    && e.ToReceiver? && e.m.DataMsg?
    && Diff(e.m.packet.seqNumber, c.rcv.lastSentAck) == 0
    && e.m.packet.seqNumber !in c.rcv.buf.packets
    && |c.rcv.buf.packets| == c.rcv.buf.maxSize
  }

  lemma DropShrinks(m: map<nat, Packet>, keys: set<nat>)
    ensures |m - keys| <= |m|
  {
    assert (m - keys).Keys <= m.Keys;
    SubsetSize((m - keys).Keys, m.Keys);
  }

  lemma {:induction false} SubsetSize(a: set<nat>, b: set<nat>)
    requires a <= b
    ensures |a| <= |b|
  {
    if a != {} {
      var x :| x in a;
      SubsetSize(a - {x}, b - {x});
    }
  }

  /** Occupancy stays within the configured size at a step exactly when the step does not overfill. */
  lemma FitsUnlessOverfilled(c: Sys, e: Event)
    requires Fits(c) && Enabled(c, e)
    ensures Fits(Apply(c, e)) <==> !Overfills(c, e)
  {
    hide R.OnData, R.SendAck, R.Recv, S.PickResend, S.ReadResend, S.FetchNew, S.OnFullAck, S.OnNak, S.OnExp, S.Send;
    match e
    case ToReceiver(m) =>
      if m.DataMsg? { DataOccupancy(c.rcv, m.packet); }
    case Recv(room) => RecvOccupancy(c.rcv, room);
    case SendAck(light, recent) => AckOccupancy(c.rcv, light, recent);
    case _ =>
  }

  lemma RecvOccupancy(r: R.Rcv, room: nat)
    ensures |R.Recv(r, room).1.buf.packets| <= |r.buf.packets| && R.Recv(r, room).1.buf.maxSize == r.buf.maxSize
  {
    var keys := RB.Readable(r.buf);
    var n := RB.FitCount(r.buf.packets, keys, room);
    DropShrinks(r.buf.packets, set k | k in keys[..n]);
    hide RB.Readable, RB.FitCount;
  }

  lemma AckOccupancy(r: R.Rcv, light: bool, recent: bool)
    requires r.window.size > 0
    ensures
      var b := R.SendAck(r, light, recent).0.buf;
      b.packets == r.buf.packets && b.maxSize == r.buf.maxSize
  {
    hide R.NextMissing;
  }

  lemma DataOccupancy(r: R.Rcv, p: Packet)
    ensures R.OnData(r, p).0.buf == if R.Admits(r, p.seqNumber) then RB.Insert(r.buf, p) else r.buf
  {
  }

  predicate NeverOverfills(c: Sys, es: seq<Event>)
    requires Legal(c, es)
    decreases |es|
  {
    es != [] ==> !Overfills(c, es[0]) && NeverOverfills(Apply(c, es[0]), es[1..])
  }

  /** The occupancy fits at every point of the run. */
  ghost predicate AlwaysFits(c: Sys, es: seq<Event>)
    requires Legal(c, es)
    decreases |es|
  {
    Fits(c) && (es != [] ==> AlwaysFits(Apply(c, es[0]), es[1..]))
  }

  /** The occupancy fits throughout a run if and only if the run never overfills. */
  lemma {:induction false} AlwaysFitsIff(c: Sys, es: seq<Event>)
    requires Fits(c) && Legal(c, es)
    ensures AlwaysFits(c, es) <==> NeverOverfills(c, es)
    decreases |es|
  {
    hide Fits, Overfills, Apply, Enabled;
    if es != [] {
      FitsUnlessOverfilled(c, es[0]);
      if Fits(Apply(c, es[0])) {
        AlwaysFitsIff(Apply(c, es[0]), es[1..]);
      } else {
        NotFitting(Apply(c, es[0]), es[1..]);
      }
    }
  }

  lemma NotFitting(c: Sys, es: seq<Event>)
    requires Legal(c, es) && !Fits(c)
    ensures !AlwaysFits(c, es)
  {
  }

  /**
   In every run that never admits an offset-0 packet into a full buffer the occupancy stays
   within the configured size, so the subtraction that computes the free slots never wraps.
   */
  lemma {:induction false} OccupancyBounded(c: Sys, es: seq<Event>)
    requires Fits(c) && Legal(c, es) && NeverOverfills(c, es)
    ensures Fits(Run(c, es))
    ensures RB.Available(Run(c, es).rcv.buf) == Run(c, es).rcv.buf.maxSize - |Run(c, es).rcv.buf.packets|
    decreases |es|
  {
    if es != [] {
      FitsUnlessOverfilled(c, es[0]);
      OccupancyBounded(Apply(c, es[0]), es[1..]);
    }
  }

  // ---------------------------------------------------------------- the boundary

  const SMALL := Config(1, 2, 1, 1, true)
  const X := Block([65], 0, false, First)
  const Y := Block([66], 0, false, Last)
  const SENT: set<Msg> := {DataMsg(AsPacket(X, 1)), DataMsg(AsPacket(Y, 2))}

  function Late(currRcv: nat, loss: Spans, packets: map<nat, Packet>): R.Rcv {
    R.Rcv(S.Connected, 1, currRcv, loss, 1, 0, W.Empty(1024), RB.RcvBuf(1, packets, 1, 1))
  }

  function At(currSnd: nat, position: int, rcv: R.Rcv, net: set<Msg>, received: set<nat>): Sys {
    Sys(1, S.Snd(S.Connected, 1, 1, currSnd, map[], SB.SndBuf(2, 1, [X, Y], 1, position)), None, None, rcv, net,
        [[65, 66]], [X, Y], received, [], [])
  }

  const E1: Sys := At(0, 0, Late(0, map[], map[]), {}, {})
  const E2: Sys := At(2, 2, Late(0, map[], map[]), SENT, {})
  const E3: Sys := At(2, 2, Late(2, map[1 := Span(1, 1)], map[2 := AsPacket(Y, 2)]), SENT + {Nak([1])}, {2})

  lemma Boundary1()
    ensures Enabled(Start(SMALL), Send([65, 66])) && Apply(Start(SMALL), Send([65, 66])) == E1
  {
    var data: seq<Byte> := [65, 66];
    assert data[..1] == [65] && data[1..] == [66];
    assert SB.Chunks([66], 1) == [[66]];
    assert SB.Chunks(data, 1) == [[65], [66]];
    assert SB.Segment(data, 1, 0, false) == [X, Y];
  }

  lemma Boundary2()
    ensures Enabled(E1, FetchNew(16)) && Apply(E1, FetchNew(16)) == E2
  {
    var (packets, snd) := S.FetchNew(E1.snd, 16);
    assert packets == [AsPacket(X, 1), AsPacket(Y, 2)];
    assert DataMsgs(packets) == SENT by {
      assert packets[0] in packets && packets[1] in packets;
    }
  }

  lemma Boundary3()
    ensures Enabled(E2, ToReceiver(DataMsg(AsPacket(Y, 2)))) && Apply(E2, ToReceiver(DataMsg(AsPacket(Y, 2)))) == E3
  {
    var none: Spans := map[];
    assert KeysIn(none.Keys, 2, 2) == [];
    assert Without(none, []) == none;
    FloorMeaning(none.Keys, 1);
    assert Insert(none, 1, 1) == map[1 := Span(1, 1)];
    hide Insert;
  }

  const E4: Sys := At(2, 2, Late(2, map[], map[2 := AsPacket(Y, 2), 1 := AsPacket(X, 1)]), SENT + {Nak([1])}, {1, 2})

  lemma Boundary4()
    ensures
      var e := ToReceiver(DataMsg(AsPacket(X, 1)));
      Enabled(E3, e) && Overfills(E3, e) && Apply(E3, e) == E4
  {
    var one: Spans := map[1 := Span(1, 1)];
    assert FloorKey(one.Keys, 1) == Some(1);
    assert Remove(one, 1) == map[];
    hide Remove;
    assert {2} + {1} == {1, 2};
  }

  lemma TwoInOneSlot()
    ensures |E4.rcv.buf.packets| == 2 && RB.Available(E4.rcv.buf) == 0xffff_ffff
  {
    var packets := map[2 := AsPacket(Y, 2), 1 := AsPacket(X, 1)];
    assert packets.Keys == {1, 2};
    assert |packets| == |packets.Keys|;
  }

  /**
   The boundary is reached: with one slot, a packet that arrives out of order and then the one
   before it leave two packets in the buffer, and the free slots wrap around to 2^32 - 1.
   */
  lemma BoundaryRun() returns (d: Sys)
    ensures CanReach(Start(SMALL), d)
    ensures d.rcv.buf.maxSize == 1 && |d.rcv.buf.packets| == 2 && RB.Available(d.rcv.buf) == 0xffff_ffff
  {
    Boundary1(); Boundary2(); Boundary3(); Boundary4();
    d := E4;
    TwoInOneSlot();
    hide Enabled, Apply, CanReach;
    ReachSelf(d);
    ReachStep(E3, ToReceiver(DataMsg(AsPacket(X, 1))), d);
    ReachStep(E2, ToReceiver(DataMsg(AsPacket(Y, 2))), d);
    ReachStep(E1, FetchNew(16), d);
    ReachStep(Start(SMALL), Send([65, 66]), d);
  }
}
