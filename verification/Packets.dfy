/** The data carried by a connection: blocks of the send buffer and data packets. */
module Packets {

  type Byte = x: int | 0 <= x < 256

  /** src/data_packet.rs, `PacketPosition`. */
  datatype Position = First | Middle | Last | Only

  /**
   A block of the send buffer. Its origin time and time to live are left out: a stream never
   sets a time to live, so no block expires.
   */
  datatype Block = Block(data: seq<Byte>, msgNumber: nat, inOrder: bool, position: Position)

  /** A data packet without its timestamp and its destination, which is always the peer. */
  datatype Packet = Packet(seqNumber: nat, data: seq<Byte>, msgNumber: nat, inOrder: bool, position: Position)

  function AsPacket(b: Block, seqNumber: nat): Packet {
    Packet(seqNumber, b.data, b.msgNumber, b.inOrder, b.position)
  }

  /** The payload of a series of blocks, end to end. */
  function Bytes(blocks: seq<Block>): seq<Byte> {
    if blocks == [] then [] else blocks[0].data + Bytes(blocks[1..])
  }

  function Flatten(messages: seq<seq<Byte>>): seq<Byte> {
    if messages == [] then [] else messages[0] + Flatten(messages[1..])
  }

  lemma {:induction false} BytesAppend(a: seq<Block>, b: seq<Block>)
    ensures Bytes(a + b) == Bytes(a) + Bytes(b)
  {
    if a == [] {
      assert a + b == b;
    } else {
      assert (a + b)[1..] == a[1..] + b;
      BytesAppend(a[1..], b);
    }
  }

  lemma {:induction false} FlattenAppend(a: seq<seq<Byte>>, b: seq<seq<Byte>>)
    ensures Flatten(a + b) == Flatten(a) + Flatten(b)
  {
    if a == [] {
      assert a + b == b;
    } else {
      assert (a + b)[1..] == a[1..] + b;
      FlattenAppend(a[1..], b);
    }
  }
}
