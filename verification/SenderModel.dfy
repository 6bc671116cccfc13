/**
 The sending half of a socket: the handlers of src/socket.rs that touch the sending fields of
 `SocketState` and the send buffer, as functions on a value. A handler holds the state lock
 while it works, except that a retransmission picks its packet under one lock and reads the
 send buffer under another; those are two functions here.
 */
module SenderModel {
  import opened SeqNumber
  import opened OrderedKeys
  import opened Packets
  import opened LossListModel
  import B = SndBufferModel

  /** `UdtStatus`. */
  datatype Status = Init | Opened | Listening | Connecting | Connected | Broken | Closing | Closed {
    predicate IsAlive() {
      this != Broken && this != Closing && this != Closed
    }
  }

  datatype Snd = Snd(status: Status, lastAckReceived: nat, lastDataAckProcessed: nat, currSnd: nat,
                     lossList: Spans, buf: B.SndBuf)

  /** A retransmission chosen from the loss list: its number and its place in the send buffer. */
  datatype Resend = Resend(seqNumber: nat, offset: int)

  function Initial(isn: nat, maxSize: nat, payloadSize: nat): Snd {
    Snd(Connected, isn, isn, Add(isn, -1), map[], B.Empty(maxSize, payloadSize))
  }

  /** `send`: whether the message was accepted, and the sender afterwards. */
  function Send(s: Snd, data: seq<Byte>): (bool, Snd)
    requires s.buf.payloadSize > 0
  {
    if s.status != Connected then (false, s)
    else if data == [] then (true, s)
    else
      var added := B.AddMessage(s.buf, data, false);
      if added.Some? then (true, s.(buf := added.value)) else (false, s)
  }

  /** The first section of `next_data_packets`: take a number off the loss list. */
  function PickResend(s: Snd): (Option<Resend>, Snd) {
    var popped := PopAfter(s.lossList, s.lastDataAckProcessed);
    var s' := s.(lossList := popped.1);
    if popped.0.Some? then
      (Some(Resend(popped.0.value, Diff(popped.0.value, s.lastDataAckProcessed))), s')
    else (None, s')
  }

  /** The second section: read the picked block, if its offset is in the buffer. */
  function ReadResend(s: Snd, r: Resend): Option<Packet> {
    if r.offset < 0 then None
    else
      var block := B.ReadData(s.buf, r.offset);
      if block.Some? then Some(AsPacket(block.value, r.seqNumber)) else None
  }

  /** The section of `next_data_packets` that runs when nothing is to be sent again. */
  function FetchNew(s: Snd, window: int): (seq<Packet>, Snd)
    requires 0 <= s.buf.position <= |s.buf.blocks|
  {
    if Diff(s.currSnd, s.lastAckReceived) > window then ([], s)
    else
      var batch := B.FetchBatch(s.buf, Add(s.currSnd, 1));
      if batch.0 == [] then ([], s.(buf := batch.1))
      else (batch.0, s.(buf := batch.1, currSnd := Add(s.currSnd, |batch.0|)))
  }

  /** An ACK without the optional fields. */
  function OnLightAck(s: Snd, next: nat): Snd {
    if Diff(next, s.lastAckReceived) >= 0 then s.(lastAckReceived := next) else s
  }

  /** An ACK with the optional fields: it also releases acknowledged blocks. */
  function OnFullAck(s: Snd, next: nat): Snd {
    var s1 := if Diff(next, s.currSnd) > 1 then s.(status := Broken) else s;
    var s2 := OnLightAck(s1, next);
    var offset := Diff(next, s.lastDataAckProcessed);
    if offset <= 0 then s2
    else s2.(buf := B.AckData(s.buf, offset),
             lossList := RemoveAll(s.lossList, s.lastDataAckProcessed, Add(next, -1)),
             lastDataAckProcessed := next)
  }

  /** One range of a NAK: recorded from the last ACK on. */
  function RecordLoss(s: Snd, first: nat, last: nat): Snd {
    if Diff(first, s.lastAckReceived) >= 0 then s.(lossList := Insert(s.lossList, first, last))
    else if Diff(last, s.lastAckReceived) >= 0 then s.(lossList := Insert(s.lossList, s.lastAckReceived, last))
    else s
  }

  const RANGE_FLAG: nat := 0x8000_0000

  /** The range at the front of a NAK's loss information, and how many words it takes. */
  function FrontRange(info: seq<nat>): Option<(nat, nat, nat)>
    requires info != []
  {
    if info[0] < RANGE_FLAG then Some((info[0], info[0], 1))
    else if |info| < 2 then None
    else Some((info[0] - RANGE_FLAG, info[1], 2))
  }

  predicate Refused(s: Snd, first: nat, last: nat) {
    Diff(first, last) > 0 || Diff(last, s.currSnd) > 0
  }

  /** The loop over the loss information: whether it was broken, and the sender afterwards. */
  function NakLoop(s: Snd, info: seq<nat>): (bool, Snd)
    decreases |info|
  {
    if info == [] then (false, s)
    else
      var front := FrontRange(info);
      if front.None? || Refused(s, front.value.0, front.value.1) then (true, s)
      else NakLoop(RecordLoss(s, front.value.0, front.value.1), info[front.value.2..])
  }

  function OnNak(s: Snd, info: seq<nat>): Snd {
    var result := NakLoop(s, info);
    if result.0 then result.1.(status := Broken) else result.1
  }

  /** Ranges of a well-formed NAK stay within the number range. */
  predicate InRange(info: seq<nat>) {
    info != [] ==>
      var front := FrontRange(info);
      front.Some? ==> front.value.0 <= SEQ_MAX && front.value.1 <= SEQ_MAX && InRange(info[front.value.2..])
  }

  /** The EXP timer: everything unacknowledged is scheduled again when nothing is scheduled. */
  function OnExp(s: Snd): Snd {
    if s.buf.blocks != [] && s.lastAckReceived != Add(s.currSnd, 1) && s.lossList == map[] then
      s.(lossList := Insert(s.lossList, s.lastAckReceived, s.currSnd))
    else s
  }
}

/** The sending half with its fields updated in place. */
module Sender {
  import opened SeqNumber
  import opened OrderedKeys
  import opened Packets
  import opened LossListModel
  import opened M = SenderModel
  import LossList
  import SndBuffer

  class Sender {
    var status: Status
    var lastAckReceived: nat
    var lastDataAckProcessed: nat
    var currSndSeqNumber: nat
    const sndLossList: LossList.LossList
    const sndBuffer: SndBuffer.SndBuffer

    ghost predicate Valid()
      reads this, sndLossList, sndBuffer
    {
      && sndLossList.Valid() && sndBuffer.Valid()
      && lastAckReceived <= SEQ_MAX && lastDataAckProcessed <= SEQ_MAX && currSndSeqNumber <= SEQ_MAX
    }

    ghost function Value(): Snd
      reads this, sndLossList, sndBuffer
    {
      Snd(status, lastAckReceived, lastDataAckProcessed, currSndSeqNumber, sndLossList.sequences, sndBuffer.Value())
    }

    constructor (isn: nat, maxSize: nat, payloadSize: nat)
      requires isn <= SEQ_MAX && payloadSize > 0
      ensures Valid() && Value() == M.Initial(isn, maxSize, payloadSize)
      ensures fresh(sndLossList) && fresh(sndBuffer)
    {
      status := Connected;
      lastAckReceived, lastDataAckProcessed, currSndSeqNumber := isn, isn, Add(isn, -1);
      sndLossList := new LossList.LossList();
      sndBuffer := new SndBuffer.SndBuffer(maxSize, payloadSize);
    }

    method Send(data: seq<Byte>) returns (accepted: bool)
      requires Valid()
      modifies sndBuffer
      ensures Valid() && (accepted, Value()) == M.Send(old(Value()), data)
    {
      if status != Connected {
        return false;
      }
      if data == [] {
        return true;
      }
      accepted := sndBuffer.AddMessage(data, false);
    }

    /** `next_data_packets` run without interruption, under a window chosen by the environment. */
    method NextDataPackets(window: int) returns (packets: seq<Packet>)
      requires Valid() && 0 <= sndBuffer.currentPosition <= |sndBuffer.buffer|
      modifies this, sndLossList, sndBuffer
      ensures Valid()
      ensures
        var before := old(Value());
        if !before.status.IsAlive() then packets == [] && Value() == before
        else if PickResend(before).0.Some? then
          var sent := ReadResend(PickResend(before).1, PickResend(before).0.value);
          packets == (if sent.Some? then [sent.value] else []) && Value() == PickResend(before).1
        else (packets, Value()) == FetchNew(before, window)
    {
      packets := [];
      if !status.IsAlive() {
        return;
      }
      var popped := sndLossList.PopAfter(lastDataAckProcessed);
      if popped.Some? {
        var offset := Diff(popped.value, lastDataAckProcessed);
        if offset < 0 {
          return;
        }
        var block := sndBuffer.ReadData(offset);
        if block.Some? {
          packets := [AsPacket(block.value, popped.value)];
        }
        return;
      }
      assert sndLossList.sequences == old(sndLossList.sequences);
      if Diff(currSndSeqNumber, lastAckReceived) > window {
        return;
      }
      packets := sndBuffer.FetchBatch(Add(currSndSeqNumber, 1));
      if packets != [] {
        currSndSeqNumber := Add(currSndSeqNumber, |packets|);
      }
    }

    method OnLightAck(next: nat)
      requires Valid() && next <= SEQ_MAX
      modifies this
      ensures Valid() && Value() == M.OnLightAck(old(Value()), next)
    {
      if Diff(next, lastAckReceived) >= 0 {
        lastAckReceived := next;
      }
    }

    method OnFullAck(next: nat)
      requires Valid() && next <= SEQ_MAX
      modifies this, sndLossList, sndBuffer
      ensures Valid() && Value() == M.OnFullAck(old(Value()), next)
    {
      if Diff(next, currSndSeqNumber) > 1 {
        status := Broken;
      }
      if Diff(next, lastAckReceived) >= 0 {
        lastAckReceived := next;
      }
      var offset := Diff(next, lastDataAckProcessed);
      if offset <= 0 {
        return;
      }
      sndBuffer.AckData(offset);
      sndLossList.RemoveAll(lastDataAckProcessed, Add(next, -1));
      lastDataAckProcessed := next;
    }

    method OnNak(info: seq<nat>)
      requires Valid() && InRange(info)
      modifies this, sndLossList
      ensures Valid() && Value() == M.OnNak(old(Value()), info)
    {
      var rest := info;
      var broken := false;
      while rest != []
        invariant Valid() && InRange(rest) && !broken
        invariant NakLoop(Value(), rest) == NakLoop(old(Value()), info)
        decreases |rest|
      {
        var front := FrontRange(rest);
        if front.None? || Diff(front.value.0, front.value.1) > 0
           || Diff(front.value.1, currSndSeqNumber) > 0 {
          broken := true;
          break;
        }
        if Diff(front.value.0, lastAckReceived) >= 0 {
          sndLossList.Insert(front.value.0, front.value.1);
        } else if Diff(front.value.1, lastAckReceived) >= 0 {
          sndLossList.Insert(lastAckReceived, front.value.1);
        }
        rest := rest[front.value.2..];
      }
      if broken {
        status := Broken;
      }
    }

    /** The EXP part of `check_timers`. */
    method OnExp()
      requires Valid()
      modifies sndLossList
      ensures Valid() && Value() == M.OnExp(old(Value()))
    {
      var bufferEmpty := sndBuffer.IsEmpty();
      if !bufferEmpty {
        var nothingScheduled := sndLossList.IsEmpty();
        if lastAckReceived != Add(currSndSeqNumber, 1) && nothingScheduled {
          sndLossList.Insert(lastAckReceived, currSndSeqNumber);
        }
      }
    }
  }
}
