/** The receive buffer of src/queue/rcv_buffer.rs as a value. */
module RcvBufferModel {
  import opened SeqNumber
  import opened OrderedKeys
  import opened Packets

  datatype RcvBuf = RcvBuf(maxSize: nat, packets: map<nat, Packet>, nextToRead: nat, nextToAck: nat)

  function Empty(maxSize: nat, isn: nat): RcvBuf {
    RcvBuf(maxSize, map[], isn, isn)
  }

  /** Free slots, in u32 arithmetic: an over-full buffer makes the subtraction wrap. */
  function Available(b: RcvBuf): nat {
    var free := b.maxSize - |b.packets|;
    if free < 0 then free % 0x1_0000_0000 else free
  }

  function Insert(b: RcvBuf, p: Packet): RcvBuf {
    if p.seqNumber in b.packets then b else b.(packets := b.packets[p.seqNumber := p])
  }

  function AckData(b: RcvBuf, to: nat): RcvBuf {
    if Diff(to, b.nextToAck) > 0 then b.(nextToAck := to) else b
  }

  /** The keys a read may deliver, in the order it visits them. */
  function Readable(b: RcvBuf): seq<nat> {
    if b.nextToRead == b.nextToAck then []
    else if b.nextToRead <= b.nextToAck then KeysIn(b.packets.Keys, b.nextToRead, b.nextToAck)
    else KeysIn(b.packets.Keys, b.nextToRead, SEQ_MAX + 1) + KeysIn(b.packets.Keys, 0, b.nextToAck)
  }

  function HasDataToRead(b: RcvBuf): bool {
    if b.nextToRead <= b.nextToAck then KeysIn(b.packets.Keys, b.nextToRead, b.nextToAck) != []
    else KeysIn(b.packets.Keys, b.nextToRead, SEQ_MAX + 1) != [] || KeysIn(b.packets.Keys, 0, b.nextToAck) != []
  }

  /** The payload stored under a series of keys, end to end. */
  function Payload(packets: map<nat, Packet>, keys: seq<nat>): seq<Byte> {
    if keys == [] then []
    else (if keys[0] in packets then packets[keys[0]].data else []) + Payload(packets, keys[1..])
  }

  /** How many leading packets fit in `room` bytes: the loop stops at the first that does not. */
  function FitCount(packets: map<nat, Packet>, keys: seq<nat>, room: nat): (n: nat)
    ensures n <= |keys|
  {
    if keys == [] || keys[0] !in packets || |packets[keys[0]].data| > room then 0
    else 1 + FitCount(packets, keys[1..], room - |packets[keys[0]].data|)
  }

  /** `read_buffer` with `room` bytes left: the bytes delivered and the buffer afterwards. */
  function ReadBuffer(b: RcvBuf, room: nat): (seq<Byte>, RcvBuf) {
    var keys := Readable(b);
    var n := FitCount(b.packets, keys, room);
    (Payload(b.packets, keys[..n]), Taken(b, keys[..n]))
  }

  /** The buffer after the packets under `keys` have been delivered. */
  function Taken(b: RcvBuf, keys: seq<nat>): RcvBuf {
    b.(packets := b.packets - (set k | k in keys),
       nextToRead := if keys == [] then b.nextToRead else Add(keys[|keys| - 1], 1))
  }

  lemma {:induction false} PayloadAppend(packets: map<nat, Packet>, a: seq<nat>, b: seq<nat>)
    ensures Payload(packets, a + b) == Payload(packets, a) + Payload(packets, b)
  {
    if a == [] {
      assert a + b == b;
    } else {
      assert (a + b)[1..] == a[1..] + b;
      PayloadAppend(packets, a[1..], b);
    }
  }

  // ---------------------------------------------------------------- meaning

  /** `x` is one of the numbers acknowledged and not yet read. */
  ghost predicate Awaiting(b: RcvBuf, x: nat) {
    && b.nextToRead != b.nextToAck
    && (if b.nextToRead < b.nextToAck then b.nextToRead <= x < b.nextToAck
        else b.nextToRead <= x <= SEQ_MAX || 0 <= x < b.nextToAck)
  }

  /** The keys visited are the buffered numbers awaiting a read, in cyclic order. */
  lemma ReadableMeaning(b: RcvBuf)
    requires b.nextToAck <= SEQ_MAX
    ensures forall x :: x in Readable(b) <==> x in b.packets && Awaiting(b, x)
    ensures forall i, j :: 0 <= i < j < |Readable(b)| ==>
      Ahead(b.nextToRead, Readable(b)[i]) < Ahead(b.nextToRead, Readable(b)[j])
  {
    var low := KeysIn(b.packets.Keys, b.nextToRead, if b.nextToRead <= b.nextToAck then b.nextToAck else SEQ_MAX + 1);
    KeysInMeaning(b.packets.Keys, b.nextToRead, b.nextToAck);
    KeysInMeaning(b.packets.Keys, b.nextToRead, SEQ_MAX + 1);
    KeysInMeaning(b.packets.Keys, 0, b.nextToAck);
    var high := KeysIn(b.packets.Keys, 0, b.nextToAck);
    assert forall i :: 0 <= i < |low| ==> low[i] in low;
    assert forall i :: 0 <= i < |high| ==> high[i] in high;
  }

  lemma {:induction false} FitCountMeaning(packets: map<nat, Packet>, keys: seq<nat>, room: nat)
    requires forall k :: k in keys ==> k in packets
    ensures
      var n := FitCount(packets, keys, room);
      && |Payload(packets, keys[..n])| <= room
      && (n < |keys| ==> |Payload(packets, keys[..n + 1])| > room)
  {
    if keys != [] && |packets[keys[0]].data| <= room {
      assert keys[0] in keys;
      FitCountMeaning(packets, keys[1..], room - |packets[keys[0]].data|);
      var n := FitCount(packets, keys[1..], room - |packets[keys[0]].data|);
      assert keys[..n + 1][1..] == keys[1..][..n];
      if n + 1 < |keys| {
        assert keys[..n + 2][1..] == keys[1..][..n + 1];
      }
    } else if keys != [] {
      assert keys[0] in keys;
      assert keys[..1][1..] == [];
    }
  }

  /**
   A read delivers the longest run of awaiting packets, in cyclic order from the read
   position, that fits the room; it removes exactly those.
   */
  lemma ReadMeaning(b: RcvBuf, room: nat)
    requires b.nextToAck <= SEQ_MAX
    ensures
      var keys := Readable(b);
      var n := FitCount(b.packets, keys, room);
      && ReadBuffer(b, room).0 == Payload(b.packets, keys[..n])
      && |Payload(b.packets, keys[..n])| <= room
      && (n < |keys| ==> |Payload(b.packets, keys[..n + 1])| > room)
      && (forall x :: x in ReadBuffer(b, room).1.packets <==> x in b.packets && x !in keys[..n])
      && (forall x :: x in ReadBuffer(b, room).1.packets ==> ReadBuffer(b, room).1.packets[x] == b.packets[x])
  {
    ReadableMeaning(b);
    FitCountMeaning(b.packets, Readable(b), room);
  }

  /** `has_data_to_read` holds exactly when a read with enough room takes a packet. */
  lemma HasDataMeaning(b: RcvBuf)
    requires b.nextToAck <= SEQ_MAX
    ensures HasDataToRead(b) <==> Readable(b) != []
    ensures HasDataToRead(b) <==> exists room: nat :: FitCount(b.packets, Readable(b), room) > 0
  {
    if b.nextToRead == b.nextToAck {
      assert KeysIn(b.packets.Keys, b.nextToRead, b.nextToAck) == [];
    }
    if Readable(b) != [] {
      ReadableMeaning(b);
      assert Readable(b)[0] in Readable(b);
      var room := |b.packets[Readable(b)[0]].data|;
      assert FitCount(b.packets, Readable(b), room) > 0;
    }
  }
}
