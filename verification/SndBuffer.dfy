/** The mutable send buffer of src/queue/snd_buffer.rs. */
module SndBuffer {
  import opened SeqNumber
  import opened OrderedKeys
  import opened Packets
  import opened M = SndBufferModel

  class SndBuffer {
    const maxSize: nat
    var buffer: seq<Block>
    var payloadSize: nat
    var nextMsgNumber: nat
    var currentPosition: int

    ghost predicate Valid()
      reads this
    {
      payloadSize > 0
    }

    ghost function Value(): SndBuf
      reads this
    {
      SndBuf(maxSize, payloadSize, buffer, nextMsgNumber, currentPosition)
    }

    constructor (maxSize: nat, payloadSize: nat)
      requires payloadSize > 0
      ensures Valid() && Value() == M.Empty(maxSize, payloadSize)
    {
      this.maxSize := maxSize;
      this.payloadSize := payloadSize;
      buffer, nextMsgNumber, currentPosition := [], 0, 0;
    }

    /** A refused message leaves the buffer as it was; an accepted one never overfills it. */
    method AddMessage(data: seq<Byte>, inOrder: bool) returns (ok: bool)
      requires Valid()
      modifies this
      ensures Valid()
      ensures ok == M.AddMessage(old(Value()), data, inOrder).Some?
      ensures Value() == if ok then M.AddMessage(old(Value()), data, inOrder).value else old(Value())
      ensures ok ==> |buffer| <= maxSize && Bytes(buffer) == old(Bytes(buffer)) + data
    {
      var blocks := Segment(data, payloadSize, nextMsgNumber, inOrder);
      SegmentMeaning(data, payloadSize, nextMsgNumber, inOrder);
      BytesAppend(buffer, blocks);
      if |buffer| + |blocks| > maxSize {
        return false;
      }
      buffer := buffer + blocks;
      nextMsgNumber := Shift(MSG_MAX, nextMsgNumber, 1);
      return true;
    }

    method AckData(offset: int)
      modifies this
      ensures Value() == M.AckData(old(Value()), offset)
      ensures payloadSize == old(payloadSize)
    {
      var i := 0;
      while i < offset
        invariant 0 <= i
        invariant if offset < 0 then i == 0 else i <= offset
        invariant Value() == M.AckData(old(Value()), i)
        invariant payloadSize == old(payloadSize)
      {
        if |buffer| > 0 {
          buffer := buffer[1..];
          currentPosition := currentPosition - 1;
        }
        i := i + 1;
      }
    }

    method ReadData(offset: nat) returns (b: Option<Block>)
      ensures b == M.ReadData(Value(), offset)
    {
      b := if offset < |buffer| then Some(buffer[offset]) else None;
    }

    method FetchBatch(seqNumber: nat) returns (packets: seq<Packet>)
      requires 0 <= currentPosition <= |buffer| && seqNumber <= SEQ_MAX
      modifies this
      ensures (packets, Value()) == M.FetchBatch(old(Value()), seqNumber)
      ensures payloadSize == old(payloadSize)
    {
      packets := [];
      var next := seqNumber;
      var batch := buffer[currentPosition..];
      if |batch| > FETCH_BATCH_SIZE {
        batch := batch[..FETCH_BATCH_SIZE];
      }
      assert forall j :: 0 <= j < |batch| ==> batch[j] == buffer[currentPosition + j];
      for i := 0 to |batch|
        invariant |packets| == i && Value() == old(Value())
        invariant next == Add(seqNumber, i)
        invariant forall j :: 0 <= j < i ==> packets[j] == AsPacket(batch[j], Add(seqNumber, j))
      {
        packets := packets + [AsPacket(batch[i], next)];
        ShiftTwice(SEQ_MAX, seqNumber, i, 1);
        next := Add(next, 1);
      }
      assert packets == M.FetchBatch(Value(), seqNumber).0;
      currentPosition := currentPosition + |packets|;
    }

    method IsEmpty() returns (empty: bool)
      ensures empty <==> Value().blocks == []
    {
      empty := |buffer| == 0;
    }
  }
}
