/** Decoding received bytes: the packet header and the flag-driven message payload. */
module ProtocolParser {
  import opened Bytes
  import opened Packets
  import opened BinaryReaders

  // Fields of a message payload, as functions of the bytes not read yet.

  function TakeField8(rest: seq<byte>): Option<(seq<byte>, seq<byte>)> {
    var (len, r) := TakeU8(rest);
    TakeData(r, len)
  }

  function TakeField16(rest: seq<byte>): Option<(seq<byte>, seq<byte>)> {
    var (len, r) := TakeU16(rest);
    TakeData(r, len)
  }

  function TakeOptional8(present: bool, rest: seq<byte>): Option<(seq<byte>, seq<byte>)> {
    if present then TakeField8(rest) else Some(([], rest))
  }

  /** A hex character's value in its low four bits: letters have the 0x40 bit. */
  function HexNibble(c: byte): nat {
    if HasBit(c, 0x40) then c as int + 9 else c
  }

  /** Two hex characters as a byte; the high one is shifted in an 8-bit variable. */
  function HexByte(high: byte, low: byte): byte {
    HexNibble(high) * 0x10 % 0x100 + HexNibble(low) % 0x10
  }

  function DecodeHex(s: seq<byte>): (r: seq<byte>)
    requires |s| % 2 == 0
    ensures |r| == |s| / 2
  {
    if s == [] then [] else DecodeHex(s[..|s| - 2]) + [HexByte(s[|s| - 2], s[|s| - 1])]
  }

  function DecodePeerId(s: seq<byte>): u64
    requires |s| == 16
  {
    ToU64(DecodeHex(s))
  }

  /** The sender peer id counts only when it has sixteen characters. */
  function TakePeer(present: bool, rest: seq<byte>): Option<(Option<u64>, seq<byte>)> {
    if !present then Some((None, rest))
    else
      var (text, r) :- TakeField8(rest);
      Some((if |text| == 16 then Some(DecodePeerId(text)) else None, r))
  }

  function TakeMentionList(count: nat, done: seq<seq<byte>>, rest: seq<byte>): Option<(seq<seq<byte>>, seq<byte>)>
    decreases count
  {
    if count == 0 then Some((done, rest))
    else
      var (mention, r) :- TakeField8(rest);
      TakeMentionList(count - 1, done + [mention], r)
  }

  function TakeMentions(present: bool, rest: seq<byte>): Option<(seq<seq<byte>>, seq<byte>)> {
    if !present then Some(([], rest))
    else
      var (count, r) := TakeU8(rest);
      TakeMentionList(count, [], r)
  }

  /** The fields every message has, and the bytes after them. */
  function ParseFixed(payload: seq<byte>): Option<(Message, seq<byte>)> {
    var (flags, r0) := TakeU8(payload);
    var (timestamp, r1) := TakeU64(r0);
    var (id, r2) :- TakeField8(r1);
    var (sender, r3) :- TakeField8(r2);
    var (content, r4) :- TakeField16(r3);
    var secret := HasBit(flags, IS_ENCRYPTED);
    Some((Message(flags, timestamp, id, sender, if secret then [] else content, if secret then content else [],
                  [], [], None, [], []), r4))
  }

  /** The message up to and including the sender peer id, and the bytes after it. */
  function ParseHead(payload: seq<byte>): Option<(Message, seq<byte>)> {
    if |payload| < 13 then None
    else
      var (m, r4) :- ParseFixed(payload);
      var (originalSender, r5) :- TakeOptional8(HasBit(m.flags, HAS_ORIGINAL_SENDER), r4);
      var (recipient, r6) :- TakeOptional8(HasBit(m.flags, HAS_RECIPIENT_NICKNAME), r5);
      var (peer, r7) :- TakePeer(HasBit(m.flags, HAS_SENDER_PEER), r6);
      Some((m.(originalSender := originalSender, recipient := recipient, senderPeer := peer), r7))
  }

  /** The message in a payload; `None` when it is too short or corrupted. */
  function ParseMessage(payload: seq<byte>): Option<Message> {
    var (head, r0) :- ParseHead(payload);
    var (mentions, r1) :- TakeMentions(HasBit(head.flags, HAS_MENTIONS), r0);
    var (channel, _) :- TakeOptional8(HasBit(head.flags, HAS_CHANNEL), r1);
    Some(head.(mentions := mentions, channel := channel))
  }

  /** The peer registered while parsing, even when a later field turns out to be corrupted. */
  function PeerSeen(payload: seq<byte>): Option<u64> {
    var (head, _) :- ParseHead(payload);
    head.senderPeer
  }

  /** The text of the sender peer id, when the message is flagged as having one and parses that far. */
  function SenderIdText(payload: seq<byte>): Option<seq<byte>> {
    if |payload| < 13 then None
    else
      var (m, r4) :- ParseFixed(payload);
      var (_, r5) :- TakeOptional8(HasBit(m.flags, HAS_ORIGINAL_SENDER), r4);
      var (_, r6) :- TakeOptional8(HasBit(m.flags, HAS_RECIPIENT_NICKNAME), r5);
      if HasBit(m.flags, HAS_SENDER_PEER) then
        var (text, _) :- TakeField8(r6);
        Some(text)
      else None
  }

  /** Zlib decompression into a buffer of the announced size: the output, or `None` on an error. */
  type Inflater = (seq<byte>, u16) -> Option<seq<byte>>

  /** What a received buffer decodes to. A flagged signature that is not there is undefined behaviour. */
  datatype Incoming =
    | Dropped
    | Undefined
    | Decoded(packetType: byte, ttl: byte, timestamp: u64, flags: byte, sender: u64, recipient: u64,
              payload: seq<byte>, signature: seq<byte>)

  function TakeRecipient(flags: byte, rest: seq<byte>): (u64, seq<byte>) {
    if HasBit(flags, HAS_RECIPIENT) then TakeU64(rest) else (0, rest)
  }

  /** The payload, expanded when the compressed flag is set and the expansion succeeds. */
  function TakePayload(inflate: Inflater, flags: byte, len: u16, rest: seq<byte>): Option<(seq<byte>, seq<byte>)> {
    if HasBit(flags, IS_COMPRESSED) then
      var (originalSize, r0) := TakeU16(rest);
      var (data, r1) :- TakeData(r0, (len + 0xFFFE) % 0x1_0000);
      var expanded := inflate(data, originalSize);
      Some((if expanded.Some? && |expanded.value| > 0 then expanded.value else data, r1))
    else
      TakeData(rest, len)
  }

  function TakeSignature(flags: byte, rest: seq<byte>): Option<seq<byte>> {
    if !HasBit(flags, HAS_SIGNATURE) then Some([])
    else
      var (signature, _) :- TakeData(rest, 64);
      Some(signature)
  }

  function ParsePacket(inflate: Inflater, buffer: seq<byte>): Incoming {
    var (version, r0) := TakeU8(buffer);
    if version != 1 then Dropped
    else
      var (packetType, r1) := TakeU8(r0);
      var (ttl, r2) := TakeU8(r1);
      var (timestamp, r3) := TakeU64(r2);
      var (flags, r4) := TakeU8(r3);
      var (len, r5) := TakeU16(r4);
      var (sender, r6) := TakeU64(r5);
      var (recipient, r7) := TakeRecipient(flags, r6);
      match TakePayload(inflate, flags, len, r7)
      case None => Dropped
      case Some((payload, r8)) =>
        match TakeSignature(flags, r8)
        case None => Undefined
        case Some(signature) =>
          Decoded(packetType, ttl, timestamp, flags, sender, recipient, payload, signature)
  }

  // The same decoding, driving the cursor.

  method ReadField8(reader: BinaryReader) returns (data: Option<seq<byte>>)
    requires reader.InBounds()
    modifies reader
    ensures reader.InBounds()
    ensures match TakeField8(old(reader.Rest()))
            case None => data.None?
            case Some((d, rest)) => data == Some(d) && reader.Rest() == rest
  {
    var len := reader.ReadUint8();
    data := reader.ReadData(len);
  }

  method ReadOptional8(present: bool, reader: BinaryReader) returns (data: Option<seq<byte>>)
    requires reader.InBounds()
    modifies reader
    ensures reader.InBounds()
    ensures match TakeOptional8(present, old(reader.Rest()))
            case None => data.None?
            case Some((d, rest)) => data == Some(d) && reader.Rest() == rest
  {
    if present {
      data := ReadField8(reader);
    } else {
      data := Some([]);
    }
  }

  /** `v` shifted left by `n` bytes. */
  function Shifted(v: nat, n: nat): nat
    decreases n
  {
    if n == 0 then v else 0x100 * Shifted(v, n - 1)
  }

  lemma {:induction false} ShiftedAdd(high: nat, low: nat, n: nat)
    ensures Shifted(0x100 * high + low, n) == Shifted(high, n + 1) + Shifted(low, n)
    decreases n
  {
    if n > 0 {
      ShiftedAdd(high, low, n - 1);
    }
  }

  /** After `k` bytes: they stand in the high-order positions. */
  ghost function PeerIdSoFar(text: seq<byte>, k: nat): nat
    requires k <= 8 && |text| == 16
  {
    Shifted(FromBigEndian(DecodeHex(text[..2 * k])), 8 - k)
  }

  lemma PeerIdStep(text: seq<byte>, k: nat)
    requires k < 8 && |text| == 16
    ensures PeerIdSoFar(text, k + 1) == PeerIdSoFar(text, k) + Shifted(HexByte(text[2 * k], text[2 * k + 1]), 7 - k)
  {
    hide FromBigEndian, DecodeHex, Shifted, HexByte;
    assert text[..2 * (k + 1)] == text[..2 * k + 2];
    HexStep(text, 2 * k);
    ShiftedAdd(FromBigEndian(DecodeHex(text[..2 * k])), HexByte(text[2 * k], text[2 * k + 1]), 7 - k);
  }

  lemma HexStep(text: seq<byte>, i: nat)
    requires i % 2 == 0 && i + 2 <= |text|
    ensures FromBigEndian(DecodeHex(text[..i + 2])) ==
            0x100 * FromBigEndian(DecodeHex(text[..i])) + HexByte(text[i], text[i + 1])
  {
    var s := text[..i + 2];
    assert s[..|s| - 2] == text[..i];
    var d := DecodeHex(s);
    assert d[..|d| - 1] == DecodeHex(text[..i]);
  }

  /** The loop over pairs of hex characters, most significant byte first. */
  method ReadPeerId(text: seq<byte>) returns (peerId: u64)
    requires |text| == 16
    ensures peerId == DecodePeerId(text)
  {
    var sum: nat := 0;
    for k := 0 to 8
      invariant sum == PeerIdSoFar(text, k)
    {
      var value := HexNibble(text[2 * k]) * 0x10 % 0x100;
      value := value + HexNibble(text[2 * k + 1]) % 0x10;
      PeerIdStep(text, k);
      sum := sum + Shifted(value, 7 - k);
    }
    assert sum == DecodePeerId(text) by {
      assert text[..2 * 8] == text;
    }
    peerId := sum;
  }

  method ReadPeer(present: bool, reader: BinaryReader) returns (ok: bool, peer: Option<u64>)
    requires reader.InBounds()
    modifies reader
    ensures reader.InBounds()
    ensures match TakePeer(present, old(reader.Rest()))
            case None => !ok
            case Some((id, rest)) => ok && peer == id && reader.Rest() == rest
  {
    if !present {
      return true, None;
    }
    var text := ReadField8(reader);
    if text.None? {
      return false, None;
    }
    ok, peer := true, None;
    if |text.value| == 16 {
      var id := ReadPeerId(text.value);
      peer := Some(id);
    }
  }

  lemma MentionListStep(count: nat, done: seq<seq<byte>>, rest: seq<byte>)
    ensures TakeMentionList(count, done, rest) ==
            if count == 0 then Some((done, rest))
            else
              match TakeField8(rest)
              case None => None
              case Some((mention, r)) => TakeMentionList(count - 1, done + [mention], r)
  {
  }

  method ReadMentionList(count: nat, reader: BinaryReader) returns (ok: bool, mentions: seq<seq<byte>>)
    requires reader.InBounds()
    modifies reader
    ensures reader.InBounds()
    ensures match TakeMentionList(count, [], old(reader.Rest()))
            case None => !ok
            case Some((list, rest)) => ok && mentions == list && reader.Rest() == rest
  {
    hide TakeField8, TakeMentionList;
    ok, mentions := true, [];
    ghost var result := TakeMentionList(count, [], reader.Rest());
    var i := 0;
    while i < count
      invariant 0 <= i <= count
      invariant reader.InBounds()
      invariant TakeMentionList(count - i, mentions, reader.Rest()) == result
    {
      MentionListStep(count - i, mentions, reader.Rest());
      var mention := ReadField8(reader);
      if mention.None? {
        return false, [];
      }
      mentions := mentions + [mention.value];
      i := i + 1;
    }
    MentionListStep(0, mentions, reader.Rest());
  }

  method ReadMentions(present: bool, reader: BinaryReader) returns (ok: bool, mentions: seq<seq<byte>>)
    requires reader.InBounds()
    modifies reader
    ensures reader.InBounds()
    ensures match TakeMentions(present, old(reader.Rest()))
            case None => !ok
            case Some((list, rest)) => ok && mentions == list && reader.Rest() == rest
  {
    hide TakeMentionList;
    ok, mentions := true, [];
    if present {
      var count := reader.ReadUint8();
      ok, mentions := ReadMentionList(count, reader);
    }
  }

  method ReadFixed(reader: BinaryReader) returns (message: Option<Message>)
    requires reader.InBounds()
    modifies reader
    ensures reader.InBounds()
    ensures match ParseFixed(old(reader.Rest()))
            case None => message.None?
            case Some((m, rest)) => message == Some(m) && reader.Rest() == rest
  {
    hide TakeField8;
    var flags := reader.ReadUint8();
    var timestamp := reader.ReadUint64();
    var id := ReadField8(reader);
    if id.None? {
      return None;
    }
    var sender := ReadField8(reader);
    if sender.None? {
      return None;
    }
    var contentLen := reader.ReadUint16();
    var content := reader.ReadData(contentLen);
    if content.None? {
      return None;
    }
    var secret := HasBit(flags, IS_ENCRYPTED);
    message := Some(Message(flags, timestamp, id.value, sender.value, if secret then [] else content.value,
                            if secret then content.value else [], [], [], None, [], []));
  }

  method ReadHead(payload: seq<byte>, reader: BinaryReader) returns (message: Option<Message>)
    requires reader.InBounds() && reader.Rest() == payload
    modifies reader
    ensures reader.InBounds()
    ensures match ParseHead(payload)
            case None => message.None?
            case Some((m, rest)) => message == Some(m) && reader.Rest() == rest
  {
    hide ParseFixed, TakeOptional8, TakePeer;
    if |payload| < 13 {
      return None;
    }
    var fixed := ReadFixed(reader);
    if fixed.None? {
      return None;
    }
    var m := fixed.value;
    var originalSender := ReadOptional8(HasBit(m.flags, HAS_ORIGINAL_SENDER), reader);
    if originalSender.None? {
      return None;
    }
    var recipient := ReadOptional8(HasBit(m.flags, HAS_RECIPIENT_NICKNAME), reader);
    if recipient.None? {
      return None;
    }
    var ok, peer := ReadPeer(HasBit(m.flags, HAS_SENDER_PEER), reader);
    if !ok {
      return None;
    }
    message := Some(m.(originalSender := originalSender.value, recipient := recipient.value, senderPeer := peer));
  }

  /** Fills a message from a payload. `peer` is the peer registered on the way. */
  method ProcessMessage(payload: seq<byte>) returns (message: Option<Message>, peer: Option<u64>)
    ensures message == ParseMessage(payload)
    ensures peer == PeerSeen(payload)
  {
    hide ParseHead, TakeOptional8, TakeMentions;
    message, peer := None, None;
    var reader := new BinaryReader(0, payload);
    assert reader.Rest() == payload;
    var head := ReadHead(payload, reader);
    if head.None? {
      return;
    }
    peer := head.value.senderPeer;
    var ok, mentions := ReadMentions(HasBit(head.value.flags, HAS_MENTIONS), reader);
    if !ok {
      return;
    }
    var channel := ReadOptional8(HasBit(head.value.flags, HAS_CHANNEL), reader);
    if channel.None? {
      return;
    }
    message := Some(head.value.(mentions := mentions, channel := channel.value));
  }

  /** The bytes of a buffer from an offset on; none when the offset lies past the end. */
  function From(buffer: seq<byte>, offset: nat): seq<byte> {
    if offset <= |buffer| then buffer[offset..] else []
  }

  method ReadPayload(inflate: Inflater, flags: byte, length: u16, reader: BinaryReader) returns (payload: Option<seq<byte>>)
    requires reader.InBounds()
    modifies reader
    ensures reader.InBounds()
    ensures match TakePayload(inflate, flags, length, old(reader.Rest()))
            case None => payload.None?
            case Some((data, rest)) => payload == Some(data) && reader.Rest() == rest
  {
    var len, originalSize := length, 0;
    if HasBit(flags, IS_COMPRESSED) {
      originalSize := reader.ReadUint16();
      len := (len as int + 0xFFFE) % 0x1_0000;
    }
    payload := reader.ReadData(len);
    if payload.Some? && HasBit(flags, IS_COMPRESSED) {
      var expanded := inflate(payload.value, originalSize);
      if expanded.Some? && |expanded.value| > 0 {
        payload := expanded;
      }
    }
  }

  /** The decoding half of handling a write. `Undefined` stands for copying from the null pointer. */
  method ReadPacket(inflate: Inflater, offset: u16, buffer: seq<byte>) returns (incoming: Incoming)
    ensures incoming == ParsePacket(inflate, From(buffer, offset))
  {
    var reader := new BinaryReader(offset, buffer);
    var version := reader.ReadUint8();
    if version != 1 {
      return Dropped;
    }
    var packetType := reader.ReadUint8();
    var ttl := reader.ReadUint8();
    var timestamp := reader.ReadUint64();
    var flags := reader.ReadUint8();
    var len := reader.ReadUint16();
    var sender := reader.ReadUint64();
    var recipient := 0;
    if HasBit(flags, HAS_RECIPIENT) {
      recipient := reader.ReadUint64();
    }
    var payload := ReadPayload(inflate, flags, len, reader);
    if payload.None? {
      return Dropped;
    }
    var signature := Some([]);
    if HasBit(flags, HAS_SIGNATURE) {
      signature := reader.ReadData(64);
    }
    if signature.None? {
      return Undefined;
    }
    return Decoded(packetType, ttl, timestamp, flags, sender, recipient, payload.value, signature.value);
  }
}
