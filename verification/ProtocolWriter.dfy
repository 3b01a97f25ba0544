/** Serialising packets and message payloads. */
module ProtocolWriter {
  import opened Bytes
  import opened Packets
  import opened BinaryWriters

  // What is written, as functions of the packet.

  /** A byte string behind a one-byte length. */
  function Field8(s: seq<byte>): seq<byte> {
    [|Clamp(s, 255)|] + Clamp(s, 255)
  }

  /** A byte string behind a two-byte length. */
  function Field16(s: seq<byte>): seq<byte> {
    Bytes16(|Clamp(s, 65535)|) + Clamp(s, 65535)
  }

  function Optional8(present: bool, s: seq<byte>): seq<byte> {
    if present then Field8(s) else []
  }

  function PeerField(present: bool, peer: Option<u64>): seq<byte>
    requires present ==> peer.Some?
  {
    if present then [16] + Hex64(peer.value) else []
  }

  function Mentions(mentions: seq<seq<byte>>): seq<byte> {
    if mentions == [] then [] else Field8(mentions[0]) + Mentions(mentions[1..])
  }

  /** The count is capped, the mentions are not. */
  function MentionsField(present: bool, mentions: seq<seq<byte>>): seq<byte> {
    if present then [Min(255, |mentions|)] + Mentions(mentions) else []
  }

  /** The part of a message payload up to and including the sender peer id. */
  function MessageHead(m: Message): seq<byte>
    requires HasBit(m.flags, HAS_SENDER_PEER) ==> m.senderPeer.Some?
  {
    [m.flags] + Bytes64(m.timestamp) + Field8(m.id) + Field8(m.sender) + Field16(m.content)
    + Optional8(HasBit(m.flags, HAS_ORIGINAL_SENDER), m.originalSender)
    + Optional8(HasBit(m.flags, HAS_RECIPIENT_NICKNAME), m.recipient)
    + PeerField(HasBit(m.flags, HAS_SENDER_PEER), m.senderPeer)
  }

  function MessageBytes(m: Message): seq<byte>
    requires HasBit(m.flags, HAS_SENDER_PEER) ==> m.senderPeer.Some?
  {
    MessageHead(m)
    + MentionsField(HasBit(m.flags, HAS_MENTIONS), m.mentions)
    + Optional8(HasBit(m.flags, HAS_CHANNEL), m.channel)
  }

  /** The payload; an opaque payload's length is passed as 16 bits. */
  function PayloadBytes(p: Packet): seq<byte>
    requires Writable(p)
  {
    match p.body
    case Raw(payload) => payload[..|payload| % 0x1_0000]
    case Text(message) => MessageBytes(message)
  }

  function SignatureBytes(p: Packet): seq<byte> {
    if HasBit(p.flags, HAS_SIGNATURE) then Field8(p.signature) else []
  }

  function RecipientBytes(p: Packet): seq<byte> {
    if HasBit(p.flags, HAS_RECIPIENT) then Bytes64(p.recipient) else []
  }

  /** The header. The time to live is reduced by one, wrapping. */
  function HeaderBytes(p: Packet, payloadLen: u16): seq<byte> {
    [1, p.packetType, (p.ttl + 255) % 256] + Bytes64(p.timestamp) + [p.flags] + Bytes16(payloadLen)
    + Bytes64(p.sender) + RecipientBytes(p)
  }

  /** The bytes of `p` on the wire. */
  function PacketBytes(p: Packet): seq<byte>
    requires Writable(p)
  {
    var payload := Clamp(PayloadBytes(p), 65535);
    HeaderBytes(p, |payload|) + payload + SignatureBytes(p) + [0]
  }

  method WriteField8(writer: BinaryWriter, s: seq<byte>)
    modifies writer
    ensures writer.vector == old(writer.vector) + Field8(s)
  {
    var len := Min(255, |s|);
    writer.WriteUint8(len);
    writer.WriteData(s, len);
  }

  /** The output so far, relative to where the writer started. */
  ghost function Extend(start: seq<byte>, out: seq<byte>, part: seq<byte>): (r: seq<byte>)
    ensures start + out + part == start + r
  {
    out + part
  }

  method WriteField16(writer: BinaryWriter, s: seq<byte>)
    modifies writer
    ensures writer.vector == old(writer.vector) + Field16(s)
  {
    var len := Min(65535, |s|);
    writer.WriteUint16(len);
    writer.WriteData(s, len);
  }

  method WriteOptional8(writer: BinaryWriter, present: bool, s: seq<byte>)
    modifies writer
    ensures writer.vector == old(writer.vector) + Optional8(present, s)
  {
    if present {
      WriteField8(writer, s);
    }
  }

  method WritePeer(writer: BinaryWriter, present: bool, peer: Option<u64>)
    requires present ==> peer.Some?
    modifies writer
    ensures writer.vector == old(writer.vector) + PeerField(present, peer)
  {
    if present {
      writer.WriteUint8(16);
      writer.WriteUint64Hex(peer.value);
    }
  }

  method WriteMentions(writer: BinaryWriter, present: bool, mentions: seq<seq<byte>>)
    modifies writer
    ensures writer.vector == old(writer.vector) + MentionsField(present, mentions)
  {
    if present {
      writer.WriteUint8(Min(255, |mentions|));
      ghost var before := writer.vector;
      for i := 0 to |mentions|
        invariant writer.vector + Mentions(mentions[i..]) == before + Mentions(mentions)
      {
        WriteField8(writer, mentions[i]);
        assert mentions[i..][1..] == mentions[i + 1..];
      }
      assert Mentions(mentions[|mentions|..]) == [];
      assert writer.vector == before + Mentions(mentions);
    }
  }

  method WriteMessageHead(writer: BinaryWriter, message: Message)
    requires HasBit(message.flags, HAS_SENDER_PEER) ==> message.senderPeer.Some?
    modifies writer
    ensures writer.vector == old(writer.vector) + MessageHead(message)
  {
    ghost var start := writer.vector;
    writer.WriteUint8(message.flags);
    ghost var out := [message.flags];
    writer.WriteUint64(message.timestamp);
    out := Extend(start, out, Bytes64(message.timestamp));
    WriteField8(writer, message.id);
    out := Extend(start, out, Field8(message.id));
    WriteField8(writer, message.sender);
    out := Extend(start, out, Field8(message.sender));
    WriteField16(writer, message.content);
    out := Extend(start, out, Field16(message.content));
    WriteOptional8(writer, HasBit(message.flags, HAS_ORIGINAL_SENDER), message.originalSender);
    out := Extend(start, out, Optional8(HasBit(message.flags, HAS_ORIGINAL_SENDER), message.originalSender));
    WriteOptional8(writer, HasBit(message.flags, HAS_RECIPIENT_NICKNAME), message.recipient);
    out := Extend(start, out, Optional8(HasBit(message.flags, HAS_RECIPIENT_NICKNAME), message.recipient));
    WritePeer(writer, HasBit(message.flags, HAS_SENDER_PEER), message.senderPeer);
    out := Extend(start, out, PeerField(HasBit(message.flags, HAS_SENDER_PEER), message.senderPeer));
  }

  method WriteMessagePayload(writer: BinaryWriter, message: Message)
    requires HasBit(message.flags, HAS_SENDER_PEER) ==> message.senderPeer.Some?
    modifies writer
    ensures writer.vector == old(writer.vector) + MessageBytes(message)
  {
    ghost var start := writer.vector;
    WriteMessageHead(writer, message);
    ghost var out := MessageHead(message);
    WriteMentions(writer, HasBit(message.flags, HAS_MENTIONS), message.mentions);
    out := Extend(start, out, MentionsField(HasBit(message.flags, HAS_MENTIONS), message.mentions));
    WriteOptional8(writer, HasBit(message.flags, HAS_CHANNEL), message.channel);
    out := Extend(start, out, Optional8(HasBit(message.flags, HAS_CHANNEL), message.channel));
  }

  method WritePayload(p: Packet) returns (payload: seq<byte>)
    requires Writable(p)
    ensures payload == PayloadBytes(p)
  {
    var writer := new BinaryWriter();
    if p.packetType == TYPE_MESSAGE {
      WriteMessagePayload(writer, p.body.message);
    } else {
      writer.WriteData(p.body.payload, |p.body.payload| % 0x1_0000);
    }
    payload := writer.vector;
  }

  method WriteHeader(writer: BinaryWriter, p: Packet, payloadLen: u16)
    modifies writer
    ensures writer.vector == old(writer.vector) + HeaderBytes(p, payloadLen)
  {
    ghost var start := writer.vector;
    writer.WriteUint8(1);
    writer.WriteUint8(p.packetType);
    writer.WriteUint8((p.ttl + 255) % 256);
    ghost var out := [1, p.packetType, (p.ttl + 255) % 256];
    assert writer.vector == start + out;
    writer.WriteUint64(p.timestamp);
    out := Extend(start, out, Bytes64(p.timestamp));
    writer.WriteUint8(p.flags);
    out := Extend(start, out, [p.flags]);
    writer.WriteUint16(payloadLen);
    out := Extend(start, out, Bytes16(payloadLen));
    writer.WriteUint64(p.sender);
    out := Extend(start, out, Bytes64(p.sender));
    if HasBit(p.flags, HAS_RECIPIENT) {
      writer.WriteUint64(p.recipient);
      out := Extend(start, out, Bytes64(p.recipient));
    }
  }

  method WritePacket(writer: BinaryWriter, p: Packet)
    requires Writable(p)
    modifies writer
    ensures writer.vector == old(writer.vector) + PacketBytes(p)
  {
    ghost var start := writer.vector;
    var payload := WritePayload(p);
    var payloadLen := Min(65535, |payload|);
    WriteHeader(writer, p, payloadLen);
    ghost var out := HeaderBytes(p, payloadLen);
    writer.WriteData(payload, payloadLen);
    out := Extend(start, out, Clamp(payload, 65535));
    WriteOptional8(writer, HasBit(p.flags, HAS_SIGNATURE), p.signature);
    out := Extend(start, out, SignatureBytes(p));
    writer.WriteUint8(0);
    out := Extend(start, out, [0]);
  }
}
