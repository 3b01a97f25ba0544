/** Packets, messages and the identity used to recognise a packet seen before. */
module Packets {
  import opened Bytes

  const TYPE_ANNOUNCE: byte := 0x01
  const TYPE_MESSAGE: byte := 0x04
  const TYPE_NOISE_IDENTITY: byte := 0x13

  /** The types that are passed along as opaque packets; messages are relayed separately. */
  predicate PassedAlong(packetType: byte) {
    packetType in {0x01, 0x05, 0x06, 0x07, 0x0A, 0x0B, 0x0C, 0x10, 0x11, 0x12, 0x14, 0x15, 0x16, 0x17}
  }

  const HAS_RECIPIENT: nat := 0x01
  const HAS_SIGNATURE: nat := 0x02
  const IS_COMPRESSED: nat := 0x04

  const HAS_ORIGINAL_SENDER: nat := 0x04
  const HAS_RECIPIENT_NICKNAME: nat := 0x08
  const HAS_SENDER_PEER: nat := 0x10
  const HAS_MENTIONS: nat := 0x20
  const HAS_CHANNEL: nat := 0x40
  const IS_ENCRYPTED: nat := 0x80

  /** The text part of a message packet. `senderPeer` is the id of the peer pointed to, `None` a null pointer. */
  datatype Message = Message(
    flags: byte,
    timestamp: u64,
    id: seq<byte>,
    sender: seq<byte>,
    content: seq<byte>,
    encrypted: seq<byte>,
    originalSender: seq<byte>,
    recipient: seq<byte>,
    senderPeer: Option<u64>,
    mentions: seq<seq<byte>>,
    channel: seq<byte>)

  /** The payload of a packet: a message's fields, or the bytes of any other packet type. */
  datatype Body = Raw(payload: seq<byte>) | Text(message: Message)

  datatype Packet = Packet(
    packetType: byte,
    ttl: byte,
    timestamp: u64,
    flags: byte,
    sender: u64,
    recipient: u64,
    signature: seq<byte>,
    body: Body)

  /** Message packets hold a message, every other type holds bytes. */
  predicate WellTyped(p: Packet) {
    p.packetType == TYPE_MESSAGE <==> p.body.Text?
  }

  /** What the writer dereferences must be there: the sender peer of a message flagged as carrying one. */
  predicate Writable(p: Packet) {
    WellTyped(p) && (p.body.Text? && HasBit(p.body.message.flags, HAS_SENDER_PEER) ==> p.body.message.senderPeer.Some?)
  }

  /** The standard library's string hash, 32 bits wide on the target. */
  type Hasher = seq<byte> -> bv32

  /** The bytes hashed beside the payload. */
  function HashedMeta(p: Packet): seq<byte> {
    [p.packetType, p.flags] + Bytes64(p.timestamp) + Bytes64(p.sender) + Bytes64(p.recipient)
  }

  datatype Hash = Hash(bits: bv32)

  function PacketHash(hasher: Hasher, p: Packet): Hash
    requires p.body.Raw?
  {
    Hash(hasher(p.body.payload) ^ (hasher(HashedMeta(p)) << 1))
  }

  /** What a packet is deduplicated by: the message id, or the hash of an opaque packet. */
  datatype PacketId = MessageId(id: seq<byte>) | HashId(hash: Hash)

  function IdOf(hasher: Hasher, p: Packet): PacketId {
    if p.body.Text? then MessageId(p.body.message.id) else HashId(PacketHash(hasher, p))
  }
}
