/**
 The receiving half of a socket: the handlers of src/socket.rs that touch the receiving fields
 of `SocketState` and the receive buffer, as functions on a value.
 */
module ReceiverModel {
  import opened SeqNumber
  import opened OrderedKeys
  import opened Packets
  import opened LossListModel
  import opened SenderModel
  import W = AckWindowModel
  import B = RcvBufferModel

  datatype Rcv = Rcv(status: Status, lastSentAck: nat, currRcv: nat, lossList: Spans, lastAck2: nat,
                     ackSeq: nat, window: W.AckWin, buf: B.RcvBuf)

  const ACK_WINDOW_SIZE: nat := 1024

  /** The state after the handshake; the connecting side starts `last_sent_ack` one higher. */
  function InitialRcv(isn: nat, maxSize: nat, connecting: bool): Rcv {
    Rcv(Connected, if connecting then isn else Add(isn, -1), Add(isn, -1), map[], isn, 0,
        W.Empty(ACK_WINDOW_SIZE), B.Empty(maxSize, isn))
  }

  /** Whether `process_data` puts the packet in the buffer. */
  predicate Admits(r: Rcv, seqNumber: nat) {
    var offset := Diff(seqNumber, r.lastSentAck);
    0 <= offset <= B.Available(r.buf)
  }

  /** The loss information of the NAK for a gap. */
  function GapInfo(first: nat, last: nat): seq<nat> {
    if first == last then [last] else [first + RANGE_FLAG, last]
  }

  /** `process_data`: the receiver afterwards and the NAK it sends, if any. */
  function OnData(r: Rcv, p: Packet): (Rcv, Option<seq<nat>>) {
    if !Admits(r, p.seqNumber) then (r, None)
    else
      var gap := Diff(p.seqNumber, r.currRcv) > 1;
      var first, last := Add(r.currRcv, 1), Add(p.seqNumber, -1);
      var r1 := r.(buf := B.Insert(r.buf, p),
                   lossList := if gap then Insert(r.lossList, first, last) else r.lossList);
      var r2 := if Diff(p.seqNumber, r.currRcv) > 0 then r1.(currRcv := p.seqNumber)
                else r1.(lossList := Remove(r1.lossList, p.seqNumber));
      (r2, if gap then Some(GapInfo(first, last)) else None)
  }

  /** The number `send_ack` acknowledges up to. */
  function NextMissing(r: Rcv): nat {
    var lost := PeekAfter(r.lossList, Add(r.currRcv, 1));
    if lost.Some? then lost.value else Add(r.currRcv, 1)
  }

  datatype AckMessage = Light(next: nat) | Full(ack: nat, next: nat)

  /** `send_ack`; `recent` says that the last ACK was sent less than a round trip ago. */
  function SendAck(r: Rcv, light: bool, recent: bool): (Rcv, Option<AckMessage>)
    requires r.window.size > 0
  {
    var next := NextMissing(r);
    var toAck := Diff(next, r.lastSentAck);
    if next == r.lastAck2 then (r, None)
    else if light then (r, Some(Light(next)))
    else if toAck < 0 || (toAck == 0 && recent) then (r, None)
    else
      var r1 := if toAck > 0 then r.(buf := B.AckData(r.buf, next), lastSentAck := next) else r;
      if Diff(r1.lastSentAck, r1.lastAck2) <= 0 then (r1, None)
      else
        var ack := Shift(ACK_MAX, r1.ackSeq, 1);
        (r1.(ackSeq := ack, window := W.Store(r1.window, r1.lastSentAck, ack)), Some(Full(ack, r1.lastSentAck)))
  }

  function OnAck2(r: Rcv, ack: nat): Rcv {
    var stored := W.Get(r.window, ack);
    if stored.Some? && Diff(stored.value, r.lastAck2) > 0 then r.(lastAck2 := stored.value) else r
  }

  datatype RecvResult = Failed | Pending | Delivered(data: seq<Byte>)

  /** `poll_recv` with `room` bytes left in the caller's buffer. */
  function Recv(r: Rcv, room: nat): (RecvResult, Rcv) {
    var has := B.HasDataToRead(r.buf);
    if (if r.status.IsAlive() then r.status != Connected else !has) then (Failed, r)
    else if !has then (Pending, r)
    else if room == 0 then (Delivered([]), r)
    else
      var read := B.ReadBuffer(r.buf, room);
      (Delivered(read.0), r.(buf := read.1))
  }
}

/** The receiving half with its fields updated in place. */
module Receiver {
  import opened SeqNumber
  import opened OrderedKeys
  import opened Packets
  import opened LossListModel
  import opened SenderModel
  import opened M = ReceiverModel
  import B = RcvBufferModel
  import AckWindow
  import LossList
  import RcvBuffer

  class Receiver {
    var status: Status
    var lastSentAck: nat
    var currRcvSeqNumber: nat
    var lastAck2Received: nat
    var lastAckSeqNumber: nat
    const rcvLossList: LossList.LossList
    const ackWindow: AckWindow.AckWindow
    const rcvBuffer: RcvBuffer.RcvBuffer

    ghost predicate Valid()
      reads this, rcvLossList, rcvBuffer
    {
      && rcvLossList.Valid() && ackWindow.size > 0
      && lastSentAck <= SEQ_MAX && currRcvSeqNumber <= SEQ_MAX && rcvBuffer.nextToAck <= SEQ_MAX
    }

    ghost function Value(): Rcv
      reads this, rcvLossList, ackWindow, rcvBuffer
    {
      Rcv(status, lastSentAck, currRcvSeqNumber, rcvLossList.sequences, lastAck2Received, lastAckSeqNumber,
          ackWindow.Value(), rcvBuffer.Value())
    }

    constructor (isn: nat, maxSize: nat, connecting: bool)
      requires isn <= SEQ_MAX
      ensures Valid() && Value() == M.InitialRcv(isn, maxSize, connecting)
      ensures fresh(rcvLossList) && fresh(ackWindow) && fresh(rcvBuffer)
    {
      status := Connected;
      lastSentAck, currRcvSeqNumber := if connecting then isn else Add(isn, -1), Add(isn, -1);
      lastAck2Received, lastAckSeqNumber := isn, 0;
      rcvLossList := new LossList.LossList();
      ackWindow := new AckWindow.AckWindow(ACK_WINDOW_SIZE);
      rcvBuffer := new RcvBuffer.RcvBuffer(maxSize, isn);
    }

    method OnData(p: Packet) returns (nak: Option<seq<nat>>)
      requires Valid() && p.seqNumber <= SEQ_MAX
      modifies this, rcvLossList, rcvBuffer
      ensures Valid() && (Value(), nak) == M.OnData(old(Value()), p)
    {
      var offset := Diff(p.seqNumber, lastSentAck);
      if offset < 0 {
        return None;
      }
      if B.Available(rcvBuffer.Value()) < offset {
        return None;
      }
      rcvBuffer.Insert(p);
      nak := None;
      if Diff(p.seqNumber, currRcvSeqNumber) > 1 {
        var first, last := Add(currRcvSeqNumber, 1), Add(p.seqNumber, -1);
        rcvLossList.Insert(first, last);
        nak := Some(GapInfo(first, last));
      }
      if Diff(p.seqNumber, currRcvSeqNumber) > 0 {
        currRcvSeqNumber := p.seqNumber;
      } else {
        rcvLossList.Remove(p.seqNumber);
      }
    }

    method SendAck(light: bool, recent: bool) returns (message: Option<AckMessage>)
      requires Valid()
      modifies this, ackWindow, rcvBuffer
      ensures Valid() && (Value(), message) == M.SendAck(old(Value()), light, recent)
    {
      var lost := rcvLossList.PeekAfter(Add(currRcvSeqNumber, 1));
      var next := if lost.Some? then lost.value else Add(currRcvSeqNumber, 1);
      if next == lastAck2Received {
        return None;
      }
      if light {
        return Some(Light(next));
      }
      var toAck := Diff(next, lastSentAck);
      if toAck > 0 {
        rcvBuffer.AckData(next);
        lastSentAck := next;
      } else if toAck < 0 || recent {
        return None;
      }
      if Diff(lastSentAck, lastAck2Received) > 0 {
        lastAckSeqNumber := Shift(ACK_MAX, lastAckSeqNumber, 1);
        ackWindow.Store(lastSentAck, lastAckSeqNumber);
        return Some(Full(lastAckSeqNumber, lastSentAck));
      }
      return None;
    }

    method OnAck2(ack: nat)
      requires Valid()
      modifies this
      ensures Valid() && Value() == M.OnAck2(old(Value()), ack)
    {
      var stored := ackWindow.Get(ack);
      if stored.Some? && Diff(stored.value, lastAck2Received) > 0 {
        lastAck2Received := stored.value;
      }
    }

    method Recv(room: nat) returns (result: RecvResult)
      requires Valid()
      modifies rcvBuffer
      ensures Valid() && (result, Value()) == M.Recv(old(Value()), room)
    {
      var has := rcvBuffer.HasDataToRead();
      if !status.IsAlive() {
        if !has {
          return Failed;
        }
      } else if status != Connected {
        return Failed;
      }
      if !has {
        return Pending;
      }
      if room == 0 {
        return Delivered([]);
      }
      var data := rcvBuffer.ReadBuffer(room);
      return Delivered(data);
    }
  }
}
