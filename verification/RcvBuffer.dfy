/** The mutable receive buffer of src/queue/rcv_buffer.rs. */
module RcvBuffer {
  import opened SeqNumber
  import opened OrderedKeys
  import opened Packets
  import opened M = RcvBufferModel

  class RcvBuffer {
    const maxSize: nat
    var packets: map<nat, Packet>
    var nextToRead: nat
    var nextToAck: nat

    function Value(): RcvBuf
      reads this
    {
      RcvBuf(maxSize, packets, nextToRead, nextToAck)
    }

    constructor (maxSize: nat, isn: nat)
      ensures Value() == M.Empty(maxSize, isn)
    {
      this.maxSize := maxSize;
      packets, nextToRead, nextToAck := map[], isn, isn;
    }

    method Insert(p: Packet)
      modifies this
      ensures Value() == M.Insert(old(Value()), p)
    {
      if p.seqNumber !in packets {
        packets := packets[p.seqNumber := p];
      }
    }

    method AckData(to: nat)
      modifies this
      ensures Value() == M.AckData(old(Value()), to)
    {
      if Diff(to, nextToAck) > 0 {
        nextToAck := to;
      }
    }

    method ReadBuffer(room: nat) returns (out: seq<Byte>)
      modifies this
      ensures (out, Value()) == M.ReadBuffer(old(Value()), room)
    {
      var before := Value();
      if nextToRead == nextToAck {
        assert Taken(before, []) == before;
        return [];
      }
      var toRemove;
      out, toRemove := Collect(packets, Readable(before), room);
      if toRemove != [] {
        nextToRead := Add(toRemove[|toRemove| - 1], 1);
      }
      packets := RemoveKeys(packets, toRemove);
      hide Readable, FitCount, Payload;
    }

    /** The closing loop of `read_buffer`. */
    static method RemoveKeys(packets: map<nat, Packet>, keys: seq<nat>) returns (rest: map<nat, Packet>)
      ensures rest == packets - (set k | k in keys)
    {
      rest := packets;
      for j := 0 to |keys|
        invariant rest == packets - (set k | k in keys[..j])
      {
        rest := rest - {keys[j]};
      }
      assert keys[..|keys|] == keys;
    }

    /** The loop of `read_buffer` over the packets in reading order. */
    static method Collect(packets: map<nat, Packet>, keys: seq<nat>, room: nat)
      returns (out: seq<Byte>, toRemove: seq<nat>)
      ensures toRemove == keys[..FitCount(packets, keys, room)]
      ensures out == Payload(packets, toRemove)
    {
      var left: nat := room;
      out, toRemove := [], [];
      for i := 0 to |keys|
        invariant toRemove == keys[..i] && out == Payload(packets, toRemove)
        invariant FitCount(packets, keys, room) == i + FitCount(packets, keys[i..], left)
      {
        if keys[i] !in packets || left < |packets[keys[i]].data| {
          break;
        }
        assert keys[..i + 1] == keys[..i] + [keys[i]];
        PayloadAppend(packets, keys[..i], [keys[i]]);
        assert [keys[i]][1..] == [];
        out := out + packets[keys[i]].data;
        left := left - |packets[keys[i]].data|;
        toRemove := toRemove + [keys[i]];
      }
    }

    method HasDataToRead() returns (has: bool)
      requires nextToAck <= SEQ_MAX
      ensures has <==> M.HasDataToRead(Value())
      ensures has <==> exists x :: x in packets && Awaiting(Value(), x)
    {
      has := M.HasDataToRead(Value());
      HasDataMeaning(Value());
      ReadableMeaning(Value());
      if has {
        assert Readable(Value())[0] in Readable(Value());
      }
    }
  }
}
