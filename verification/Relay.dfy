/** One repeater between two links: received bytes in, relayed bytes out. */
module Relay {
  import opened Bytes
  import opened Packets
  import opened ProtocolWriter
  import opened ProtocolParser
  import opened RoundTrip

  /** The packet that is stored for a decoded buffer, if its type is relayed at all. */
  function AsPacket(i: Incoming): Option<Packet>
    requires i.Decoded?
  {
    if i.packetType == TYPE_MESSAGE then
      var m :- ParseMessage(i.payload);
      Some(Packet(TYPE_MESSAGE, i.ttl, i.timestamp, i.flags, i.sender, i.recipient, i.signature, Text(m)))
    else if PassedAlong(i.packetType) && i.ttl >= 1 then
      Some(Packet(i.packetType, i.ttl, i.timestamp, i.flags, i.sender, i.recipient, i.signature, Raw(i.payload)))
    else None
  }

  /** What a repeater that has not seen the packet before sends on; `None` when it sends nothing. */
  function RelayBytes(inflate: Inflater, b: seq<byte>): Option<seq<byte>> {
    var i := ParsePacket(inflate, b);
    if !i.Decoded? then None
    else
      var p :- AsPacket(i);
      if p.ttl > 0 && Writable(p) then Some(PacketBytes(p)) else None
  }

  // ---- Decoding what was written ----

  function KeptRecipient(p: Packet): u64 {
    if HasBit(p.flags, HAS_RECIPIENT) then p.recipient else 0
  }

  function WrittenPayload(p: Packet): (r: seq<byte>)
    requires Writable(p)
    ensures |r| <= 65535
  {
    Clamp(PayloadBytes(p), 65535)
  }

  lemma HeaderTail(p: Packet, len: u16, tail: seq<byte>)
    ensures HeaderBytes(p, len) + tail ==
            [1] + ([p.packetType] + ([(p.ttl + 255) % 256] + (Bytes64(p.timestamp) + ([p.flags] +
            (Bytes16(len) + (Bytes64(p.sender) + (RecipientBytes(p) + tail)))))))
  {
    var t5 := Bytes64(p.sender) + (RecipientBytes(p) + tail);
    var h := [1, p.packetType, (p.ttl + 255) % 256];
    var h1 := h + Bytes64(p.timestamp);
    var h2 := h1 + [p.flags];
    var h3 := h2 + Bytes16(len);
    Assoc(h3 + Bytes64(p.sender), RecipientBytes(p), tail);
    Assoc(h3, Bytes64(p.sender), RecipientBytes(p) + tail);
    Assoc(h2, Bytes16(len), t5);
    Assoc(h1, [p.flags], Bytes16(len) + t5);
    Assoc(h, Bytes64(p.timestamp), [p.flags] + (Bytes16(len) + t5));
    var t2 := Bytes64(p.timestamp) + ([p.flags] + (Bytes16(len) + t5));
    assert h == [1] + [p.packetType] + [(p.ttl + 255) % 256];
    Assoc([1] + [p.packetType], [(p.ttl + 255) % 256], t2);
    Assoc([1], [p.packetType], [(p.ttl + 255) % 256] + t2);
  }

  lemma RecipientRoundTrip(p: Packet, tail: seq<byte>)
    ensures TakeRecipient(p.flags, RecipientBytes(p) + tail) == (KeptRecipient(p), tail)
  {
    if HasBit(p.flags, HAS_RECIPIENT) {
      U64RoundTrip(p.recipient, tail);
    } else {
      assert [] + tail == tail;
    }
  }

  /** A header in front of any uncompressed payload decodes to its fields, the payload and the signature behind it. */
  lemma DecodeFramed(inflate: Inflater, p: Packet, payload: seq<byte>, after: seq<byte>)
    requires |payload| <= 65535 && !HasBit(p.flags, IS_COMPRESSED)
    ensures ParsePacket(inflate, HeaderBytes(p, |payload|) + (payload + after)) ==
            match TakeSignature(p.flags, after)
            case None => Undefined
            case Some(signature) =>
              Decoded(p.packetType, (p.ttl + 255) % 256, p.timestamp, p.flags, p.sender, KeptRecipient(p), payload, signature)
  {
    HeaderTail(p, |payload|, payload + after);
    var r7 := RecipientBytes(p) + (payload + after);
    var r6 := Bytes64(p.sender) + r7;
    var r5 := Bytes16(|payload|) + r6;
    var r4 := [p.flags] + r5;
    var r3 := Bytes64(p.timestamp) + r4;
    var r2 := [(p.ttl + 255) % 256] + r3;
    U8RoundTrip(1, [p.packetType] + r2);
    U8RoundTrip(p.packetType, r2);
    U8RoundTrip((p.ttl + 255) % 256, r3);
    U64RoundTrip(p.timestamp, r4);
    U8RoundTrip(p.flags, r5);
    U16RoundTrip(|payload|, r6);
    U64RoundTrip(p.sender, r7);
    RecipientRoundTrip(p, payload + after);
    DataRoundTrip(payload, after);
  }

  /** An uncompressed packet decodes to what was written, except that its signature is read without the length byte. */
  lemma DecodeWritten(inflate: Inflater, p: Packet)
    requires Writable(p) && !HasBit(p.flags, IS_COMPRESSED)
    ensures ParsePacket(inflate, PacketBytes(p)) ==
            match TakeSignature(p.flags, SignatureBytes(p) + [0])
            case None => Undefined
            case Some(signature) =>
              Decoded(p.packetType, (p.ttl + 255) % 256, p.timestamp, p.flags, p.sender, KeptRecipient(p),
                      WrittenPayload(p), signature)
  {
    hide ParsePacket, PayloadBytes;
    var payload, after := WrittenPayload(p), SignatureBytes(p) + [0];
    var header := HeaderBytes(p, |payload|);
    Assoc(header + payload, SignatureBytes(p), [0]);
    Assoc(header, payload, after);
    DecodeFramed(inflate, p, payload, after);
  }

  // ---- Exactness ----

  /** The message is not cut short. */
  predicate Short(p: Packet)
    requires Writable(p)
  {
    p.body.Text? ==> |MessageBytes(p.body.message)| <= 65535
  }

  /** The mentions can be counted. */
  predicate Counted(p: Packet) {
    p.body.Text? ==> CountFits(p.body.message)
  }

  predicate Fits(p: Packet)
    requires Writable(p)
  {
    Short(p) && Counted(p)
  }

  /** The content is written back: it is not encrypted, or there is none. */
  predicate ContentKept(p: Packet) {
    p.body.Text? && HasBit(p.body.message.flags, IS_ENCRYPTED) ==> p.body.message.content == []
  }

  /** Sixty-four bytes of value 64: the one signature whose length byte does not show. */
  function SelfDescribing(): seq<byte> {
    seq(64, _ => 64)
  }

  predicate SignatureKept(p: Packet) {
    HasBit(p.flags, HAS_SIGNATURE) ==> Clamp(p.signature, 255) == SelfDescribing()
  }

  predicate Relayable(p: Packet) {
    p.packetType == TYPE_MESSAGE || PassedAlong(p.packetType)
  }

  lemma {:induction false} MentionsOfClamped(mentions: seq<seq<byte>>)
    ensures Mentions(ClampAll(mentions)) == Mentions(mentions)
  {
    if mentions != [] {
      assert ClampAll(mentions)[1..] == ClampAll(mentions[1..]);
      MentionsOfClamped(mentions[1..]);
      assert Clamp(Clamp(mentions[0], 255), 255) == Clamp(mentions[0], 255);
    }
  }

  lemma ClampTwice(s: seq<byte>)
    ensures Clamp(Clamp(s, 255), 255) == Clamp(s, 255)
    ensures Clamp(Clamp(s, 65535), 65535) == Clamp(s, 65535)
  {
  }

  lemma HeadOfNormal(m: Message)
    requires PeerPresent(m)
    requires HasBit(m.flags, IS_ENCRYPTED) ==> m.content == []
    ensures PeerPresent(Normal(m)) && MessageHead(Normal(m)) == MessageHead(m)
  {
    ClampTwice(m.id);
    ClampTwice(m.sender);
    ClampTwice(m.content);
    ClampTwice(m.originalSender);
    ClampTwice(m.recipient);
  }

  /** Writing the normal form of a message writes the same bytes. */
  lemma NormalWritesSame(m: Message)
    requires PeerPresent(m) && CountFits(m)
    requires HasBit(m.flags, IS_ENCRYPTED) ==> m.content == []
    ensures PeerPresent(Normal(m)) && CountFits(Normal(m)) && MessageBytes(Normal(m)) == MessageBytes(m)
  {
    HeadOfNormal(m);
    MentionsOfClamped(m.mentions);
    ClampTwice(m.channel);
  }

  /** The packet stored by the next repeater. */
  function NextPacket(p: Packet): Packet
    requires Writable(p)
  {
    Packet(p.packetType, (p.ttl + 255) % 256, p.timestamp, p.flags, p.sender, KeptRecipient(p), [],
           match p.body
           case Raw(_) => Raw(WrittenPayload(p))
           case Text(m) => Text(Normal(m)))
  }

  lemma NextPayload(p: Packet)
    requires Writable(p) && Fits(p) && ContentKept(p)
    ensures Writable(NextPacket(p)) && Fits(NextPacket(p)) && ContentKept(NextPacket(p))
    ensures WrittenPayload(NextPacket(p)) == WrittenPayload(p)
  {
    if p.body.Text? {
      NormalWritesSame(p.body.message);
    } else {
      var s := WrittenPayload(p);
      assert s[..|s|] == s;
      assert PayloadBytes(NextPacket(p)) == s;
    }
  }

  lemma NextBytes(p: Packet)
    requires Writable(p) && Fits(p) && ContentKept(p) && !HasBit(p.flags, HAS_SIGNATURE)
    ensures Writable(NextPacket(p)) && |PacketBytes(p)| > 2
    ensures PacketBytes(p)[2] == (p.ttl + 255) % 256
    ensures PacketBytes(NextPacket(p)) == PacketBytes(p)[2 := (p.ttl + 254) % 256]
  {
    NextPayload(p);
    var payload := WrittenPayload(p);
    var header := HeaderBytes(p, |payload|);
    HeaderNext(p, NextPacket(p), |payload|);
    var after := payload + SignatureBytes(p) + [0];
    assert PacketBytes(p) == header + after;
    assert PacketBytes(NextPacket(p)) == header[2 := (p.ttl + 254) % 256] + after;
  }

  lemma HeaderNext(p: Packet, q: Packet, len: u16)
    requires q.packetType == p.packetType && q.timestamp == p.timestamp && q.flags == p.flags && q.sender == p.sender
    requires q.recipient == KeptRecipient(p) && q.ttl == (p.ttl + 255) % 256
    ensures |HeaderBytes(p, len)| >= 22 && HeaderBytes(p, len)[2] == (p.ttl + 255) % 256
    ensures HeaderBytes(q, len) == HeaderBytes(p, len)[2 := (p.ttl + 254) % 256]
  {
    assert RecipientBytes(q) == RecipientBytes(p);
    assert (q.ttl + 255) % 256 == (p.ttl + 254) % 256;
  }

  /** What the next repeater stores for an uncompressed packet whose signature it reads as `signature`. */
  lemma StoredByNext(inflate: Inflater, p: Packet, signature: seq<byte>)
    requires Writable(p) && Fits(p) && Relayable(p) && !HasBit(p.flags, IS_COMPRESSED) && (p.ttl != 1 || p.body.Text?)
    requires TakeSignature(p.flags, SignatureBytes(p) + [0]) == Some(signature)
    ensures ParsePacket(inflate, PacketBytes(p)).Decoded?
    ensures AsPacket(ParsePacket(inflate, PacketBytes(p))) == Some(NextPacket(p).(signature := signature))
  {
    hide PacketBytes, ParsePacket, MessageBytes, ParseMessage;
    DecodeWritten(inflate, p);
    if p.body.Text? {
      MessageRoundTrip(p.body.message);
      assert WrittenPayload(p) == MessageBytes(p.body.message);
    }
  }

  /** Relay exactness: only the time to live changes, by one. */
  lemma RelayExact(inflate: Inflater, p: Packet)
    requires Writable(p) && Fits(p) && ContentKept(p) && Relayable(p)
    requires !HasBit(p.flags, IS_COMPRESSED) && !HasBit(p.flags, HAS_SIGNATURE)
    requires p.ttl != 1
    ensures |PacketBytes(p)| > 2 && PacketBytes(p)[2] >= 1
    ensures RelayBytes(inflate, PacketBytes(p)) == Some(PacketBytes(p)[2 := PacketBytes(p)[2] - 1])
  {
    hide PacketBytes, ParsePacket, AsPacket;
    StoredByNext(inflate, p, []);
    NextBytes(p);
    assert NextPacket(p).(signature := []) == NextPacket(p);
  }

  /** `k` repeaters in a row. */
  function RelayTimes(inflate: Inflater, b: seq<byte>, k: nat): Option<seq<byte>>
    decreases k
  {
    if k == 0 then Some(b)
    else
      var next :- RelayBytes(inflate, b);
      RelayTimes(inflate, next, k - 1)
  }

  /** `k` relays subtract exactly `k`, and one more relay than the time to live allows sends nothing. */
  lemma {:induction false} RelayChain(inflate: Inflater, p: Packet, k: nat)
    requires Writable(p) && Fits(p) && ContentKept(p) && Relayable(p)
    requires !HasBit(p.flags, IS_COMPRESSED) && !HasBit(p.flags, HAS_SIGNATURE)
    ensures |PacketBytes(p)| > 2
    ensures var b := PacketBytes(p);
            RelayTimes(inflate, b, k) == if k <= b[2] then Some(b[2 := b[2] - k]) else None
    decreases k
  {
    hide PacketBytes, RelayBytes, NextPacket, Fits, Writable;
    var b := PacketBytes(p);
    NextBytes(p);
    if k == 0 {
      assert b[2 := b[2]] == b;
    } else if p.ttl == 1 {
      RelayStops(inflate, p);
    } else {
      RelayExact(inflate, p);
      var q := NextPacket(p);
      NextSame(p);
      RelayChain(inflate, q, k - 1);
      if k <= b[2] {
        assert b[2 := b[2] - 1][2 := b[2] - k] == b[2 := b[2] - k];
      }
    }
  }

  /** The next packet is of the same kind. */
  lemma NextSame(p: Packet)
    requires Writable(p) && Fits(p) && ContentKept(p) && Relayable(p)
    ensures var q := NextPacket(p);
            && Writable(q) && Fits(q) && ContentKept(q) && Relayable(q) && q.flags == p.flags && q.ttl == (p.ttl + 255) % 256
  {
    hide Fits;
    NextPayload(p);
  }

  /** Any bytes at all, padded or written by other software: once a repeater has relayed them as an unsigned, uncompressed
      packet that fits, every further relay subtracts one from byte 2 and changes nothing else. */
  lemma RelayedChain(inflate: Inflater, b: seq<byte>, k: nat)
    requires RelayBytes(inflate, b).Some?
    requires var p := AsPacket(ParsePacket(inflate, b)).value;
             Short(p) && !HasBit(p.flags, IS_COMPRESSED) && !HasBit(p.flags, HAS_SIGNATURE)
    ensures var first := RelayBytes(inflate, b).value;
            && |first| > 2
            && RelayTimes(inflate, first, k) == if k <= first[2] then Some(first[2 := first[2] - k]) else None
  {
    hide PacketBytes, ParsePacket, RelayTimes, ParseMessage, MessageBytes;
    var i := ParsePacket(inflate, b);
    var p := AsPacket(i).value;
    if p.body.Text? {
      ParsedContentKept(i.payload);
    }
    RelayChain(inflate, p, k);
  }

  lemma RelayStops(inflate: Inflater, p: Packet)
    requires Writable(p) && p.ttl == 1
    requires !HasBit(p.flags, IS_COMPRESSED) && !HasBit(p.flags, HAS_SIGNATURE)
    ensures RelayBytes(inflate, PacketBytes(p)) == None
  {
    DecodeWritten(inflate, p);
  }

  // ---- Where exactness ends ----

  lemma DroppedContent(m: Message)
    requires PeerPresent(m) && CountFits(m)
    requires HasBit(m.flags, IS_ENCRYPTED) && m.content != []
    ensures PeerPresent(Normal(m)) && |MessageBytes(Normal(m))| < |MessageBytes(m)|
  {
    ClampTwice(m.id);
    ClampTwice(m.sender);
    ClampTwice(m.originalSender);
    ClampTwice(m.recipient);
    ClampTwice(m.channel);
    MentionsOfClamped(m.mentions);
    assert Clamp([], 65535) == [];
    assert |MessageHead(Normal(m))| < |MessageHead(m)|;
  }

  /** A signature read without its length byte is written back the same only if it repeats that byte. */
  lemma {:induction false} RepeatsFirst(c: seq<byte>, k: nat)
    requires |c| == 64 && c == ([64] + c + [0])[..64] && k < 64
    ensures c[k] == 64
  {
    if k > 0 {
      RepeatsFirst(c, k - 1);
      assert c[k] == ([64] + c + [0])[..64][k] == c[k - 1];
    }
  }

  lemma SignatureIff(p: Packet, signature: seq<byte>)
    requires HasBit(p.flags, HAS_SIGNATURE)
    requires TakeSignature(p.flags, SignatureBytes(p) + [0]) == Some(signature)
    ensures Field8(signature) == SignatureBytes(p) <==> SignatureKept(p)
  {
    var c := Clamp(p.signature, 255);
    assert SignatureBytes(p) == [|c|] + c;
    assert signature == ([|c|] + c + [0])[..64];
    assert Clamp(signature, 255) == signature;
    assert Field8(signature) == [64] + signature;
    if Field8(signature) == SignatureBytes(p) {
      assert |c| == 64;
      assert ([64] + signature)[1..] == signature && ([64] + c)[1..] == c;
      forall k | 0 <= k < 64 ensures c[k] == 64 {
        RepeatsFirst(c, k);
      }
    }
  }

  lemma Bytes16Injective(a: u16, b: u16)
    requires Bytes16(a) == Bytes16(b)
    ensures a == b
  {
    Bytes16RoundTrip(a);
    Bytes16RoundTrip(b);
  }

  /** Two packets with the same header fields have the same bytes iff their payloads and signatures do. */
  lemma SameBytes(p: Packet, q: Packet)
    requires Writable(p) && Writable(q)
    requires q.packetType == p.packetType && q.timestamp == p.timestamp && q.flags == p.flags && q.sender == p.sender
    requires q.recipient == KeptRecipient(p) && q.ttl == (p.ttl + 255) % 256
    ensures |PacketBytes(p)| > 2 && PacketBytes(p)[2] == (p.ttl + 255) % 256
    ensures PacketBytes(q) == PacketBytes(p)[2 := (p.ttl + 254) % 256]
            <==> WrittenPayload(q) == WrittenPayload(p) && SignatureBytes(q) == SignatureBytes(p)
  {
    hide PayloadBytes, SignatureBytes;
    var n, k := |WrittenPayload(p)|, |WrittenPayload(q)|;
    var hp, hq := HeaderBytes(p, n), HeaderBytes(q, k);
    HeaderNext(p, q, n);
    HeaderLength(p, n);
    HeaderLength(q, k);
    assert RecipientBytes(q) == RecipientBytes(p);
    var sp, sq := SignatureBytes(p), SignatureBytes(q);
    assert PacketBytes(p) == hp + (WrittenPayload(p) + (sp + [0]));
    assert PacketBytes(q) == hq + (WrittenPayload(q) + (sq + [0]));
    var hp' := hp[2 := (p.ttl + 254) % 256];
    assert PacketBytes(p)[2 := (p.ttl + 254) % 256] == hp' + (WrittenPayload(p) + (sp + [0]));
    if PacketBytes(q) == PacketBytes(p)[2 := (p.ttl + 254) % 256] {
      Prefix(hq, hp', WrittenPayload(q) + (sq + [0]), WrittenPayload(p) + (sp + [0]));
      assert hq[12..14] == hp'[12..14] == hp[12..14];
      Bytes16Injective(n, k);
      Prefix(WrittenPayload(q), WrittenPayload(p), sq + [0], sp + [0]);
      assert (sq + [0])[..|sq + [0]| - 1] == sq && (sp + [0])[..|sp + [0]| - 1] == sp;
    }
  }

  lemma Prefix(a: seq<byte>, b: seq<byte>, x: seq<byte>, y: seq<byte>)
    requires |a| == |b| && a + x == b + y
    ensures a == b && x == y
  {
    assert a == (a + x)[..|a|] == (b + y)[..|b|] == b;
    assert x == (a + x)[|a|..] == (b + y)[|b|..] == y;
  }

  lemma HeaderLength(p: Packet, len: u16)
    ensures |HeaderBytes(p, len)| == 22 + |RecipientBytes(p)|
    ensures HeaderBytes(p, len)[12..14] == Bytes16(len)
  {
  }

  // ---- More mentions than can be counted ----

  lemma {:induction false} MentionsSplit(a: seq<seq<byte>>, b: seq<seq<byte>>)
    ensures Mentions(a + b) == Mentions(a) + Mentions(b)
  {
    if a == [] {
      assert a + b == b;
      assert [] + Mentions(b) == Mentions(b);
    } else {
      assert (a + b)[1..] == a[1..] + b;
      MentionsSplit(a[1..], b);
      Assoc(Field8(a[0]), Mentions(a[1..]), Mentions(b));
    }
  }

  lemma HeadNotLonger(m: Message)
    requires PeerPresent(m)
    ensures PeerPresent(Normal(m)) && |MessageHead(Normal(m))| <= |MessageHead(m)|
  {
    ClampTwice(m.id);
    ClampTwice(m.sender);
    ClampTwice(m.content);
    ClampTwice(m.originalSender);
    ClampTwice(m.recipient);
  }

  /** What is read of a message with too many mentions: the first 255, and the next one in place of the channel. */
  function Miscounted(m: Message): Message
    requires |m.mentions| > 255
  {
    Normal(m).(mentions := ClampAll(m.mentions[..255]), channel := Kept(HasBit(m.flags, HAS_CHANNEL), m.mentions[255]))
  }

  lemma ReadsMiscounted(m: Message)
    requires PeerPresent(m) && !CountFits(m)
    ensures ParseMessage(MessageBytes(m)) == Some(Miscounted(m))
  {
    var hasChannel, ms := HasBit(m.flags, HAS_CHANNEL), m.mentions;
    var c := Optional8(hasChannel, m.channel);
    var rest := Mentions(ms[256..]) + c;
    var tail := MentionsField(true, ms) + c;
    assert ms == ms[..255] + ms[255..];
    MentionsSplit(ms[..255], ms[255..]);
    assert ms[255..][0] == ms[255] && ms[255..][1..] == ms[256..];
    Assoc(MessageHead(m), MentionsField(true, ms), c);
    hide ParseHead, MessageHead, Normal;
    HeadRoundTrip(m, tail);
    assert tail == [255] + (Mentions(ms[..255]) + (Field8(ms[255]) + rest)) by {
      Assoc([255], Mentions(ms), c);
      Assoc(Mentions(ms[..255]), Mentions(ms[255..]), c);
      Assoc(Field8(ms[255]), Mentions(ms[256..]), c);
    }
    U8RoundTrip(255, Mentions(ms[..255]) + (Field8(ms[255]) + rest));
    MentionListRoundTrip(ms[..255], [], Field8(ms[255]) + rest);
    assert [] + ClampAll(ms[..255]) == ClampAll(ms[..255]);
    Field8RoundTrip(ms[255], rest);
  }

  lemma MiscountedShorter(m: Message)
    requires PeerPresent(m) && !CountFits(m)
    ensures PeerPresent(Miscounted(m)) && |MessageBytes(Miscounted(m))| < |MessageBytes(m)|
  {
    var q, ms := Miscounted(m), m.mentions;
    HeadNotLonger(m);
    assert MessageHead(q) == MessageHead(Normal(m));
    MentionsOfClamped(ms[..255]);
    assert ms == ms[..255] + ms[255..];
    MentionsSplit(ms[..255], ms[255..]);
    ClampTwice(ms[255]);
    assert |Mentions(ms[255..])| >= |Field8(ms[255])| >= 1;
  }

  lemma MiscountedNotExact(inflate: Inflater, p: Packet, signature: seq<byte>)
    requires Writable(p) && Short(p) && Relayable(p) && !HasBit(p.flags, IS_COMPRESSED) && p.ttl != 1 && !Counted(p)
    requires TakeSignature(p.flags, SignatureBytes(p) + [0]) == Some(signature)
    ensures |PacketBytes(p)| > 2 && PacketBytes(p)[2] >= 1
    ensures RelayBytes(inflate, PacketBytes(p)) != Some(PacketBytes(p)[2 := PacketBytes(p)[2] - 1])
  {
    hide PacketBytes, ParsePacket, MessageBytes, ParseMessage, Miscounted;
    var m := p.body.message;
    DecodeWritten(inflate, p);
    ReadsMiscounted(m);
    MiscountedShorter(m);
    var q := Packet(p.packetType, (p.ttl + 255) % 256, p.timestamp, p.flags, p.sender, KeptRecipient(p), signature,
                    Text(Miscounted(m)));
    assert WrittenPayload(p) == MessageBytes(m);
    assert AsPacket(ParsePacket(inflate, PacketBytes(p))) == Some(q);
    assert RelayBytes(inflate, PacketBytes(p)) == Some(PacketBytes(q));
    SameBytes(p, q);
    assert |WrittenPayload(q)| < |WrittenPayload(p)|;
  }

  /** Relay exactness holds of an uncompressed packet exactly when no encrypted content, no signature and no mentions are
      lost. */
  lemma RelayExactIff(inflate: Inflater, p: Packet)
    requires Writable(p) && Short(p) && Relayable(p) && !HasBit(p.flags, IS_COMPRESSED) && p.ttl != 1
    ensures |PacketBytes(p)| > 2 && PacketBytes(p)[2] >= 1
    ensures RelayBytes(inflate, PacketBytes(p)) == Some(PacketBytes(p)[2 := PacketBytes(p)[2] - 1])
            <==> ContentKept(p) && SignatureKept(p) && Counted(p)
  {
    hide PacketBytes, RelayBytes, SignatureBytes, WrittenPayload, MessageBytes;
    var taken := TakeSignature(p.flags, SignatureBytes(p) + [0]);
    if taken.None? {
      SignatureMissing(inflate, p);
    } else if !Counted(p) {
      MiscountedNotExact(inflate, p, taken.value);
    } else {
      RelayedPacket(inflate, p, taken.value);
      RelayedPayloadIff(p, taken.value);
      SameBytes(p, NextPacket(p).(signature := taken.value));
      RelayedSignatureIff(p, taken.value);
    }
  }

  lemma SignatureMissing(inflate: Inflater, p: Packet)
    requires Writable(p) && !HasBit(p.flags, IS_COMPRESSED) && p.ttl != 1
    requires TakeSignature(p.flags, SignatureBytes(p) + [0]) == None
    ensures RelayBytes(inflate, PacketBytes(p)) == None && !SignatureKept(p)
    ensures |PacketBytes(p)| > 2 && PacketBytes(p)[2] >= 1
  {
    hide PacketBytes, ParsePacket, WrittenPayload;
    DecodeWritten(inflate, p);
    ThirdByte(p);
    assert |Clamp(p.signature, 255)| < 64 == |SelfDescribing()|;
  }

  lemma ThirdByte(p: Packet)
    requires Writable(p)
    ensures |PacketBytes(p)| > 2 && PacketBytes(p)[2] == (p.ttl + 255) % 256
  {
    HeaderLength(p, |WrittenPayload(p)|);
    assert HeaderBytes(p, |WrittenPayload(p)|)[2] == (p.ttl + 255) % 256;
  }

  lemma RelayedPacket(inflate: Inflater, p: Packet, signature: seq<byte>)
    requires Writable(p) && Fits(p) && Relayable(p) && !HasBit(p.flags, IS_COMPRESSED) && p.ttl != 1
    requires TakeSignature(p.flags, SignatureBytes(p) + [0]) == Some(signature)
    ensures var q := NextPacket(p).(signature := signature);
            Writable(q) && RelayBytes(inflate, PacketBytes(p)) == Some(PacketBytes(q))
  {
    hide PacketBytes, ParsePacket, AsPacket;
    StoredByNext(inflate, p, signature);
  }

  lemma RelayedPayloadIff(p: Packet, signature: seq<byte>)
    requires Writable(p) && Fits(p)
    ensures var q := NextPacket(p).(signature := signature);
            Writable(q) && (WrittenPayload(q) == WrittenPayload(p) <==> ContentKept(p))
  {
    if ContentKept(p) {
      NextPayload(p);
    } else {
      DroppedContent(p.body.message);
    }
  }

  lemma RelayedSignatureIff(p: Packet, signature: seq<byte>)
    requires Writable(p)
    requires TakeSignature(p.flags, SignatureBytes(p) + [0]) == Some(signature)
    ensures SignatureBytes(NextPacket(p).(signature := signature)) == SignatureBytes(p) <==> SignatureKept(p)
  {
    if HasBit(p.flags, HAS_SIGNATURE) {
      SignatureIff(p, signature);
    }
  }
}
