/** The send buffer of src/queue/snd_buffer.rs as a value, and what segmentation preserves. */
module SndBufferModel {
  import opened SeqNumber
  import opened OrderedKeys
  import opened Packets

  const FETCH_BATCH_SIZE: nat := 100

  /** `position` is a usize in the source; it is an `int` here so that an underflow would show. */
  datatype SndBuf = SndBuf(maxSize: nat, payloadSize: nat, blocks: seq<Block>, nextMsg: nat, position: int)

  function Empty(maxSize: nat, payloadSize: nat): SndBuf {
    SndBuf(maxSize, payloadSize, [], 0, 0)
  }

  /** `data.chunks(size)`. */
  function Chunks(data: seq<Byte>, size: nat): seq<seq<Byte>>
    requires size > 0
  {
    if data == [] then []
    else if |data| <= size then [data]
    else [data[..size]] + Chunks(data[size..], size)
  }

  function PositionOf(i: nat, n: nat): Position {
    if i == 0 && n == 1 then Only else if i == 0 then First else if i == n - 1 then Last else Middle
  }

  function Segment(data: seq<Byte>, size: nat, msgNumber: nat, inOrder: bool): (r: seq<Block>)
    requires size > 0
    ensures |r| == |Chunks(data, size)|
  {
    var chunks := Chunks(data, size);
    seq(|chunks|, i requires 0 <= i < |chunks| => Block(chunks[i], msgNumber, inOrder, PositionOf(i, |chunks|)))
  }

  /** `add_message`: `None` when the buffer has no room for all the chunks. */
  function AddMessage(b: SndBuf, data: seq<Byte>, inOrder: bool): Option<SndBuf>
    requires b.payloadSize > 0
  {
    var blocks := Segment(data, b.payloadSize, b.nextMsg, inOrder);
    if |b.blocks| + |blocks| > b.maxSize then None
    else Some(b.(blocks := b.blocks + blocks, nextMsg := Shift(MSG_MAX, b.nextMsg, 1)))
  }

  function AckData(b: SndBuf, offset: int): SndBuf {
    var n := if offset < 0 then 0 else if offset <= |b.blocks| then offset else |b.blocks|;
    b.(blocks := b.blocks[n..], position := b.position - n)
  }

  function ReadData(b: SndBuf, offset: nat): Option<Block> {
    if offset < |b.blocks| then Some(b.blocks[offset]) else None
  }

  function BatchLength(b: SndBuf): int {
    if |b.blocks| - b.position < FETCH_BATCH_SIZE then |b.blocks| - b.position else FETCH_BATCH_SIZE
  }

  /** `fetch_batch`; the source panics when the position lies outside the buffer. */
  function FetchBatch(b: SndBuf, seqNumber: nat): (seq<Packet>, SndBuf)
    requires 0 <= b.position <= |b.blocks|
  {
    var n := BatchLength(b);
    (seq(n, i requires 0 <= i < n => AsPacket(b.blocks[b.position + i], Add(seqNumber, i))),
     b.(position := b.position + n))
  }

  // ---------------------------------------------------------------- segmentation

  lemma {:induction false} ChunksMeaning(data: seq<Byte>, size: nat)
    requires size > 0
    ensures Flatten(Chunks(data, size)) == data
    ensures forall c :: c in Chunks(data, size) ==> 0 < |c| <= size
    ensures forall i :: 0 <= i < |Chunks(data, size)| - 1 ==> |Chunks(data, size)[i]| == size
    ensures data != [] ==> Chunks(data, size) != []
  {
    if |data| > size {
      ChunksMeaning(data[size..], size);
      assert data == data[..size] + data[size..];
    }
  }

  lemma {:induction false} BytesOfChunks(blocks: seq<Block>, chunks: seq<seq<Byte>>)
    requires |blocks| == |chunks| && forall i :: 0 <= i < |blocks| ==> blocks[i].data == chunks[i]
    ensures Bytes(blocks) == Flatten(chunks)
  {
    if blocks != [] {
      BytesOfChunks(blocks[1..], chunks[1..]);
    }
  }

  /** No block of a message is empty or too long, only the last may be short, and together they hold the message. */
  lemma SegmentMeaning(data: seq<Byte>, size: nat, msgNumber: nat, inOrder: bool)
    requires size > 0
    ensures Bytes(Segment(data, size, msgNumber, inOrder)) == data
    ensures forall b :: b in Segment(data, size, msgNumber, inOrder) ==> 0 < |b.data| <= size
    ensures forall i :: 0 <= i < |Segment(data, size, msgNumber, inOrder)| - 1 ==>
      |Segment(data, size, msgNumber, inOrder)[i].data| == size
    ensures forall b :: b in Segment(data, size, msgNumber, inOrder) ==> b.msgNumber == msgNumber && b.inOrder == inOrder
    ensures data != [] ==> Segment(data, size, msgNumber, inOrder) != []
  {
    var chunks := Chunks(data, size);
    var blocks := Segment(data, size, msgNumber, inOrder);
    ChunksMeaning(data, size);
    BytesOfChunks(blocks, chunks);
    forall b | b in blocks
      ensures 0 < |b.data| <= size
    {
      var i :| 0 <= i < |blocks| && blocks[i] == b;
      assert chunks[i] in chunks;
    }
  }

  /**
   Cuts a block history at its position flags: a message starts at `First` or `Only` and ends
   at `Last` or `Only`; `open` is the part of an unfinished message already seen.
   */
  function Reassemble(blocks: seq<Block>, open: seq<Byte>): seq<seq<Byte>> {
    if blocks == [] then []
    else
      var b, rest := blocks[0], blocks[1..];
      match b.position
      case Only => [b.data] + Reassemble(rest, [])
      case First => Reassemble(rest, b.data)
      case Middle => Reassemble(rest, open + b.data)
      case Last => [open + b.data] + Reassemble(rest, [])
  }

  /** The tail of a segmented message, from its second block on, closes the open message. */
  lemma {:induction false} ReassembleTail(blocks: seq<Block>, i: nat, open: seq<Byte>, rest: seq<Block>)
    requires 0 < i < |blocks|
    requires forall j :: 0 <= j < |blocks| ==> blocks[j].position == PositionOf(j, |blocks|)
    ensures Reassemble(blocks[i..] + rest, open) == [open + Bytes(blocks[i..])] + Reassemble(rest, [])
    decreases |blocks| - i
  {
    var all := blocks[i..] + rest;
    assert all[0] == blocks[i] && all[1..] == blocks[i + 1..] + rest;
    assert blocks[i..][1..] == blocks[i + 1..];
    if i + 1 == |blocks| {
      assert blocks[i + 1..] + rest == rest;
      assert blocks[i..] == [blocks[i]];
      assert Bytes([blocks[i]]) == blocks[i].data;
    } else {
      ReassembleTail(blocks, i + 1, open + blocks[i].data, rest);
      assert open + blocks[i].data + Bytes(blocks[i + 1..]) == open + Bytes(blocks[i..]);
    }
  }

  /** A segmented message in front of any history is cut off as one message. */
  lemma ReassembleSegment(data: seq<Byte>, size: nat, msgNumber: nat, inOrder: bool, rest: seq<Block>)
    requires size > 0 && data != []
    ensures Reassemble(Segment(data, size, msgNumber, inOrder) + rest, []) == [data] + Reassemble(rest, [])
  {
    var blocks := Segment(data, size, msgNumber, inOrder);
    SegmentMeaning(data, size, msgNumber, inOrder);
    var all := blocks + rest;
    assert all[0] == blocks[0] && all[1..] == blocks[1..] + rest;
    if |blocks| == 1 {
      assert blocks[1..] + rest == rest;
      assert Bytes(blocks) == blocks[0].data + Bytes(blocks[1..]);
    } else {
      ReassembleTail(blocks, 1, blocks[0].data, rest);
      assert blocks[0].data + Bytes(blocks[1..]) == data;
    }
  }

  /** The blocks of a series of messages, each with its own number. */
  function SegmentAll(messages: seq<seq<Byte>>, size: nat, firstMsg: nat): seq<Block>
    requires size > 0
  {
    if messages == [] then []
    else Segment(messages[0], size, firstMsg, false) + SegmentAll(messages[1..], size, Shift(MSG_MAX, firstMsg, 1))
  }

  /** Segmentation undoes itself over any series of non-empty messages. */
  lemma {:induction false} ReassembleAll(messages: seq<seq<Byte>>, size: nat, firstMsg: nat)
    requires size > 0 && forall i :: 0 <= i < |messages| ==> messages[i] != []
    ensures Reassemble(SegmentAll(messages, size, firstMsg), []) == messages
    ensures Bytes(SegmentAll(messages, size, firstMsg)) == Flatten(messages)
    ensures forall b :: b in SegmentAll(messages, size, firstMsg) ==> 0 < |b.data| <= size
  {
    if messages != [] {
      var next := Shift(MSG_MAX, firstMsg, 1);
      var head := Segment(messages[0], size, firstMsg, false);
      var tail := SegmentAll(messages[1..], size, next);
      ReassembleAll(messages[1..], size, next);
      ReassembleSegment(messages[0], size, firstMsg, false, tail);
      SegmentMeaning(messages[0], size, firstMsg, false);
      BytesAppend(head, tail);
      assert [messages[0]] + messages[1..] == messages;
    }
  }

  lemma {:induction false} SegmentAllAppend(messages: seq<seq<Byte>>, m: seq<Byte>, size: nat, firstMsg: nat)
    requires size > 0 && firstMsg <= MSG_MAX
    ensures SegmentAll(messages + [m], size, firstMsg)
      == SegmentAll(messages, size, firstMsg) + Segment(m, size, Shift(MSG_MAX, firstMsg, |messages|), false)
  {
    if messages == [] {
      assert messages + [m] == [m];
      assert [m][1..] == [];
      assert SegmentAll([m], size, firstMsg) == Segment(m, size, firstMsg, false) + [];
    } else {
      assert (messages + [m])[1..] == messages[1..] + [m];
      SegmentAllAppend(messages[1..], m, size, Shift(MSG_MAX, firstMsg, 1));
      ShiftTwice(MSG_MAX, firstMsg, 1, |messages| - 1);
    }
  }
}
