/** The wire format, in the numbers it is made of. */
module Wire {
  import opened Bytes
  import opened Packets
  import opened BinaryReaders
  import opened ProtocolWriter
  import opened ProtocolParser
  import opened RoundTrip
  import opened Relay

  /** The given bit, a power of two, is set. */
  predicate Set(flags: byte, bit: nat)
    requires bit > 0
  {
    flags / bit % 2 == 1
  }

  // ---- Packets ----

  /** The bytes of a packet: version 1, type, time to live, timestamp, flags, length of the payload, sender, recipient if
      bit 0x01 is set, payload, signature if bit 0x02 is set, and a zero. */
  lemma PacketLayout(p: Packet)
    requires Writable(p)
    ensures var payload := WrittenPayload(p);
            var signature := Clamp(p.signature, 255);
            PacketBytes(p) ==
            [1, p.packetType, (p.ttl + 255) % 256] + Bytes64(p.timestamp) + [p.flags] + Bytes16(|payload|) + Bytes64(p.sender)
            + (if Set(p.flags, 0x01) then Bytes64(p.recipient) else [])
            + payload + (if Set(p.flags, 0x02) then [|signature|] + signature else []) + [0]
  {
    hide PayloadBytes, Bytes64, Bytes16;
  }

  /** The payload of a packet: the message if the type is 4, the bytes as they are otherwise, cut at 65535. */
  lemma PayloadLayout(p: Packet)
    requires Writable(p)
    ensures p.packetType == 4 <==> p.body.Text?
    ensures WrittenPayload(p) == Clamp(if p.packetType == 4 then MessageBytes(p.body.message) else Clamp16(p.body.payload), 65535)
  {
    hide MessageBytes;
  }

  /** The length of an opaque payload is passed on in sixteen bits. */
  function Clamp16(s: seq<byte>): seq<byte> {
    s[..|s| % 0x1_0000]
  }

  /** The bytes of a message: flags, timestamp, id, sender and content, and the optional fields by bits 0x04, 0x08, 0x10,
      0x20 and 0x40, in this order. */
  lemma MessageLayout(m: Message)
    requires Set(m.flags, 0x10) ==> m.senderPeer.Some?
    ensures PeerPresent(m)
    ensures MessageBytes(m) ==
            [m.flags] + Bytes64(m.timestamp) + Field8(m.id) + Field8(m.sender) + Field16(m.content)
            + (if Set(m.flags, 0x04) then Field8(m.originalSender) else [])
            + (if Set(m.flags, 0x08) then Field8(m.recipient) else [])
            + PeerField(Set(m.flags, 0x10), m.senderPeer)
            + MentionsField(Set(m.flags, 0x20), m.mentions)
            + (if Set(m.flags, 0x40) then Field8(m.channel) else [])
  {
    hide Field8, Field16, Bytes64, PeerField, MentionsField;
  }

  /** Bit 0x80 decides where the content of a parsed message goes. */
  lemma EncryptedContent(payload: seq<byte>)
    requires ParseMessage(payload).Some?
    ensures var m := ParseMessage(payload).value; if Set(m.flags, 0x80) then m.content == [] else m.encrypted == []
  {
    hide TakeOptional8, TakePeer, TakeMentions;
  }

  /** A message has thirteen bytes at least. */
  lemma MessageTooShort(payload: seq<byte>)
    requires |payload| < 13
    ensures ParseMessage(payload) == None
  {
  }

  // ---- What is stored ----

  /** Messages, of type 4, are stored if they parse; announces, fragments, acknowledgements, receipts, and the packets of
      handshakes and channels if they may travel further; nothing else is. */
  lemma StoredIff(i: Incoming)
    requires i.Decoded?
    ensures AsPacket(i).Some? <==>
            || (i.packetType == 0x04 && ParseMessage(i.payload).Some?)
            || (i.ttl >= 1 && i.packetType in {0x01, 0x05, 0x06, 0x07, 0x0A, 0x0B, 0x0C, 0x10, 0x11, 0x12, 0x14, 0x15, 0x16, 0x17})
    ensures AsPacket(i).Some? ==>
              var p := AsPacket(i).value;
              && p.packetType == i.packetType && p.ttl == i.ttl && p.timestamp == i.timestamp && p.flags == i.flags
              && p.sender == i.sender && p.recipient == i.recipient && p.signature == i.signature
              && if i.packetType == 0x04 then p.body == Text(ParseMessage(i.payload).value) else p.body == Raw(i.payload)
  {
    hide ParseMessage;
  }

  /** Buffers that do not start with version 1 are dropped. */
  lemma OtherVersion(inflate: Inflater, buffer: seq<byte>)
    requires buffer == [] || buffer[0] != 1
    ensures ParsePacket(inflate, buffer) == Dropped
  {
  }

  /** A write at an offset is read from that offset on. */
  lemma OffsetSkips(before: seq<byte>, rest: seq<byte>, offset: nat)
    ensures From(before + rest, |before|) == rest
    ensures offset >= |before| ==> From(before, offset) == []
  {
  }

  // ---- Compressed packets ----

  /** What a payload of the given bytes and original size is expanded to. */
  function Expanded(inflate: Inflater, data: seq<byte>, originalSize: u16): seq<byte> {
    match inflate(data, originalSize)
    case None => data
    case Some(text) => if text == [] then data else text
  }

  /** With bit 0x04 set, the payload is led by its original size, which its length, modulo 65536, includes; it is expanded,
      or kept as it is when that fails or yields nothing. */
  lemma DecodeCompressed(inflate: Inflater, p: Packet, len: u16, originalSize: u16, data: seq<byte>, after: seq<byte>)
    requires Set(p.flags, 0x04) && |data| == (len + 65534) % 65536
    ensures ParsePacket(inflate, HeaderBytes(p, len) + (Bytes16(originalSize) + (data + after))) ==
            match TakeSignature(p.flags, after)
            case None => Undefined
            case Some(signature) =>
              Decoded(p.packetType, (p.ttl + 255) % 256, p.timestamp, p.flags, p.sender, KeptRecipient(p),
                      Expanded(inflate, data, originalSize), signature)
  {
    var rest := Bytes16(originalSize) + (data + after);
    HeaderTail(p, len, rest);
    var r7 := RecipientBytes(p) + rest;
    var r6 := Bytes64(p.sender) + r7;
    var r5 := Bytes16(len) + r6;
    var r4 := [p.flags] + r5;
    var r3 := Bytes64(p.timestamp) + r4;
    var r2 := [(p.ttl + 255) % 256] + r3;
    U8RoundTrip(1, [p.packetType] + r2);
    U8RoundTrip(p.packetType, r2);
    U8RoundTrip((p.ttl + 255) % 256, r3);
    U64RoundTrip(p.timestamp, r4);
    U8RoundTrip(p.flags, r5);
    U16RoundTrip(len, r6);
    U64RoundTrip(p.sender, r7);
    RecipientRoundTrip(p, rest);
    hide HeaderBytes, Bytes64, TakeU64, RecipientBytes;
    TakesExpanded(inflate, p.flags, len, originalSize, data, after);
  }

  lemma TakesExpanded(inflate: Inflater, flags: byte, len: u16, originalSize: u16, data: seq<byte>, after: seq<byte>)
    requires Set(flags, 0x04) && |data| == (len + 65534) % 65536
    ensures TakePayload(inflate, flags, len, Bytes16(originalSize) + (data + after)) ==
            Some((Expanded(inflate, data, originalSize), after))
  {
    U16RoundTrip(originalSize, data + after);
    DataRoundTrip(data, after);
  }
}
