/** The writer and the parser undo each other; a relay changes the time to live and nothing else. */
module RoundTrip {
  import opened Bytes
  import opened Packets
  import opened BinaryReaders
  import opened BinaryWriters
  import opened ProtocolWriter
  import opened ProtocolParser

  lemma Assoc<T>(a: seq<T>, b: seq<T>, c: seq<T>)
    ensures a + b + c == a + (b + c)
  {
  }

  // ---- Numbers and fields ----

  lemma U8RoundTrip(v: byte, tail: seq<byte>)
    ensures TakeU8([v] + tail) == (v, tail)
  {
    assert ([v] + tail)[1..] == tail;
  }

  lemma U16RoundTrip(v: u16, tail: seq<byte>)
    ensures TakeU16(Bytes16(v) + tail) == (v, tail)
  {
    assert (Bytes16(v) + tail)[..2] == Bytes16(v);
    Bytes16RoundTrip(v);
  }

  lemma U64RoundTrip(v: u64, tail: seq<byte>)
    ensures TakeU64(Bytes64(v) + tail) == (v, tail)
  {
    assert (Bytes64(v) + tail)[..8] == Bytes64(v);
    Bytes64RoundTrip(v);
  }

  lemma DataRoundTrip(s: seq<byte>, tail: seq<byte>)
    ensures TakeData(s + tail, |s|) == Some((s, tail))
  {
    assert (s + tail)[..|s|] == s;
  }

  lemma Field8RoundTrip(s: seq<byte>, tail: seq<byte>)
    ensures TakeField8(Field8(s) + tail) == Some((Clamp(s, 255), tail))
  {
    Assoc([|Clamp(s, 255)|], Clamp(s, 255), tail);
    DataRoundTrip(Clamp(s, 255), tail);
  }

  lemma Field16RoundTrip(s: seq<byte>, tail: seq<byte>)
    ensures TakeField16(Field16(s) + tail) == Some((Clamp(s, 65535), tail))
  {
    Assoc(Bytes16(|Clamp(s, 65535)|), Clamp(s, 65535), tail);
    U16RoundTrip(|Clamp(s, 65535)|, Clamp(s, 65535) + tail);
    DataRoundTrip(Clamp(s, 65535), tail);
  }

  function Kept(present: bool, s: seq<byte>): seq<byte> {
    if present then Clamp(s, 255) else []
  }

  lemma Optional8RoundTrip(present: bool, s: seq<byte>, tail: seq<byte>)
    ensures TakeOptional8(present, Optional8(present, s) + tail) == Some((Kept(present, s), tail))
  {
    if present {
      Field8RoundTrip(s, tail);
    } else {
      assert [] + tail == tail;
    }
  }

  // ---- Hex ids ----

  lemma NibbleRoundTrip(nibble: byte)
    requires nibble < 0x10
    ensures HexNibble(Hexify(nibble)) % 0x10 == nibble
    ensures HexNibble(Hexify(nibble)) * 0x10 % 0x100 == nibble as int * 0x10
  {
  }

  lemma {:induction false} HexRoundTrip(s: seq<byte>)
    ensures DecodeHex(HexBytes(s)) == s
  {
    if s != [] {
      var last := s[|s| - 1];
      HexRoundTrip(s[..|s| - 1]);
      var h := HexBytes(s);
      assert h[..|h| - 2] == HexBytes(s[..|s| - 1]);
      NibbleRoundTrip(last / 0x10);
      NibbleRoundTrip(last % 0x10);
      assert HexByte(h[|h| - 2], h[|h| - 1]) == last;
    }
  }

  /** The decode loop inverts the hex writer on every 64-bit id. */
  lemma PeerIdRoundTrip(id: u64)
    ensures DecodePeerId(Hex64(id)) == id
  {
    HexRoundTrip(Bytes64(id));
    Bytes64RoundTrip(id);
  }

  /** The same text with the letters `a`-`f` in upper case. */
  function Upper(s: seq<byte>): (r: seq<byte>)
    ensures |r| == |s|
  {
    if s == [] then [] else Upper(s[..|s| - 1]) + [UpperCase(s[|s| - 1])]
  }

  function UpperCase(c: byte): byte {
    if 'a' as int <= c <= 'f' as int then c - 32 else c
  }

  lemma UpperNibble(c: byte)
    ensures HexNibble(UpperCase(c)) % 0x10 == HexNibble(c) % 0x10
    ensures HexNibble(UpperCase(c)) * 0x10 % 0x100 == HexNibble(c) * 0x10 % 0x100
  {
  }

  lemma {:induction false} UpperPrefix(s: seq<byte>)
    requires |s| >= 2
    ensures Upper(s)[..|s| - 2] == Upper(s[..|s| - 2])
    ensures Upper(s)[|s| - 2] == UpperCase(s[|s| - 2]) && Upper(s)[|s| - 1] == UpperCase(s[|s| - 1])
  {
    var t := s[..|s| - 1];
    assert t[..|t| - 1] == s[..|s| - 2];
    assert Upper(t) == Upper(s[..|s| - 2]) + [UpperCase(s[|s| - 2])];
  }

  /** The case of a hex id does not matter. */
  lemma {:induction false} UpperDecodes(s: seq<byte>)
    requires |s| % 2 == 0
    ensures DecodeHex(Upper(s)) == DecodeHex(s)
  {
    if s != [] {
      var t, u := s[..|s| - 2], Upper(s);
      UpperDecodes(t);
      UpperPrefix(s);
      UpperNibble(s[|s| - 2]);
      UpperNibble(s[|s| - 1]);
      assert HexByte(u[|s| - 2], u[|s| - 1]) == HexByte(s[|s| - 2], s[|s| - 1]);
    }
  }

  lemma PeerRoundTrip(present: bool, peer: Option<u64>, tail: seq<byte>)
    requires present ==> peer.Some?
    ensures TakePeer(present, PeerField(present, peer) + tail) == Some((if present then peer else None, tail))
  {
    if present {
      var text := Hex64(peer.value);
      assert Clamp(text, 255) == text;
      assert PeerField(present, peer) == Field8(text);
      Field8RoundTrip(text, tail);
      PeerIdRoundTrip(peer.value);
    } else {
      assert [] + tail == tail;
    }
  }

  // ---- Mentions ----

  function ClampAll(mentions: seq<seq<byte>>): (r: seq<seq<byte>>)
    ensures |r| == |mentions|
    ensures forall i :: 0 <= i < |r| ==> r[i] == Clamp(mentions[i], 255)
  {
    if mentions == [] then [] else [Clamp(mentions[0], 255)] + ClampAll(mentions[1..])
  }

  lemma {:induction false} MentionListRoundTrip(mentions: seq<seq<byte>>, done: seq<seq<byte>>, tail: seq<byte>)
    ensures TakeMentionList(|mentions|, done, Mentions(mentions) + tail) == Some((done + ClampAll(mentions), tail))
    decreases |mentions|
  {
    if mentions == [] {
      assert [] + tail == tail;
      assert done + [] == done;
    } else {
      var first := Clamp(mentions[0], 255);
      Assoc(Field8(mentions[0]), Mentions(mentions[1..]), tail);
      Field8RoundTrip(mentions[0], Mentions(mentions[1..]) + tail);
      MentionListRoundTrip(mentions[1..], done + [first], tail);
      Assoc(done, [first], ClampAll(mentions[1..]));
    }
  }

  lemma {:induction false} MentionsRoundTrip(present: bool, mentions: seq<seq<byte>>, tail: seq<byte>)
    requires present ==> |mentions| <= 255
    ensures TakeMentions(present, MentionsField(present, mentions) + tail)
         == Some((if present then ClampAll(mentions) else [], tail))
  {
    if present {
      Assoc([|mentions|], Mentions(mentions), tail);
      U8RoundTrip(|mentions|, Mentions(mentions) + tail);
      assert Min(255, |mentions|) == |mentions|;
      MentionListRoundTrip(mentions, [], tail);
      assert [] + ClampAll(mentions) == ClampAll(mentions);
    } else {
      assert [] + tail == tail;
    }
  }

  lemma {:induction false} MentionListLength(count: nat, done: seq<seq<byte>>, rest: seq<byte>)
    ensures TakeMentionList(count, done, rest).Some? ==> |TakeMentionList(count, done, rest).value.0| == |done| + count
    decreases count
  {
    if count > 0 && TakeField8(rest).Some? {
      var (mention, r) := TakeField8(rest).value;
      MentionListLength(count - 1, done + [mention], r);
    }
  }

  // ---- Messages ----

  /** The message that survives one trip over the wire: flagged fields only, each clamped. */
  function Normal(m: Message): Message {
    var secret := HasBit(m.flags, IS_ENCRYPTED);
    var content := Clamp(m.content, 65535);
    Message(m.flags, m.timestamp, Clamp(m.id, 255), Clamp(m.sender, 255),
            if secret then [] else content, if secret then content else [],
            Kept(HasBit(m.flags, HAS_ORIGINAL_SENDER), m.originalSender),
            Kept(HasBit(m.flags, HAS_RECIPIENT_NICKNAME), m.recipient),
            if HasBit(m.flags, HAS_SENDER_PEER) then m.senderPeer else None,
            if HasBit(m.flags, HAS_MENTIONS) then ClampAll(m.mentions) else [],
            Kept(HasBit(m.flags, HAS_CHANNEL), m.channel))
  }

  predicate PeerPresent(m: Message) {
    HasBit(m.flags, HAS_SENDER_PEER) ==> m.senderPeer.Some?
  }

  predicate CountFits(m: Message) {
    HasBit(m.flags, HAS_MENTIONS) ==> |m.mentions| <= 255
  }

  /** The optional fields of the head, with what follows them. */
  lemma HeadTail(m: Message, tail: seq<byte>)
    requires PeerPresent(m)
    ensures
      var t7 := PeerField(HasBit(m.flags, HAS_SENDER_PEER), m.senderPeer) + tail;
      var t6 := Optional8(HasBit(m.flags, HAS_RECIPIENT_NICKNAME), m.recipient) + t7;
      var t5 := Optional8(HasBit(m.flags, HAS_ORIGINAL_SENDER), m.originalSender) + t6;
      MessageHead(m) + tail ==
      [m.flags] + (Bytes64(m.timestamp) + (Field8(m.id) + (Field8(m.sender) + (Field16(m.content) + t5))))
  {
    var p1 := [m.flags] + Bytes64(m.timestamp);
    var p2 := p1 + Field8(m.id);
    var p3 := p2 + Field8(m.sender);
    var p4 := p3 + Field16(m.content);
    var o := Optional8(HasBit(m.flags, HAS_ORIGINAL_SENDER), m.originalSender);
    var r := Optional8(HasBit(m.flags, HAS_RECIPIENT_NICKNAME), m.recipient);
    var p := PeerField(HasBit(m.flags, HAS_SENDER_PEER), m.senderPeer);
    Assoc(p4 + o + r, p, tail);
    Assoc(p4 + o, r, p + tail);
    Assoc(p4, o, r + (p + tail));
    Assoc(p3, Field16(m.content), o + (r + (p + tail)));
    Assoc(p2, Field8(m.sender), Field16(m.content) + (o + (r + (p + tail))));
    Assoc(p1, Field8(m.id), Field8(m.sender) + (Field16(m.content) + (o + (r + (p + tail)))));
    Assoc([m.flags], Bytes64(m.timestamp), Field8(m.id) + (Field8(m.sender) + (Field16(m.content) + (o + (r + (p + tail))))));
  }

  lemma FixedRoundTrip(m: Message, tail: seq<byte>)
    ensures ParseFixed([m.flags] + (Bytes64(m.timestamp) + (Field8(m.id) + (Field8(m.sender) + (Field16(m.content) + tail)))))
         == Some((FixedPart(m), tail))
  {
    var t3 := Field16(m.content) + tail;
    var t2 := Field8(m.sender) + t3;
    var t1 := Field8(m.id) + t2;
    U8RoundTrip(m.flags, Bytes64(m.timestamp) + t1);
    U64RoundTrip(m.timestamp, t1);
    Field8RoundTrip(m.id, t2);
    Field8RoundTrip(m.sender, t3);
    Field16RoundTrip(m.content, tail);
  }

  function FixedPart(m: Message): Message {
    Normal(m).(originalSender := [], recipient := [], senderPeer := None, mentions := [], channel := [])
  }

  lemma HeadRoundTrip(m: Message, tail: seq<byte>)
    requires PeerPresent(m)
    ensures ParseHead(MessageHead(m) + tail) == Some((Normal(m).(mentions := [], channel := []), tail))
  {
    var p := PeerField(HasBit(m.flags, HAS_SENDER_PEER), m.senderPeer) + tail;
    var r := Optional8(HasBit(m.flags, HAS_RECIPIENT_NICKNAME), m.recipient) + p;
    var o := Optional8(HasBit(m.flags, HAS_ORIGINAL_SENDER), m.originalSender) + r;
    HeadTail(m, tail);
    FixedRoundTrip(m, o);
    assert |MessageHead(m) + tail| >= 13;
    hide ParseFixed, MessageHead;
    Optional8RoundTrip(HasBit(m.flags, HAS_ORIGINAL_SENDER), m.originalSender, r);
    Optional8RoundTrip(HasBit(m.flags, HAS_RECIPIENT_NICKNAME), m.recipient, p);
    PeerRoundTrip(HasBit(m.flags, HAS_SENDER_PEER), m.senderPeer, tail);
  }

  /** Parsing a written message gives its normal form back. */
  lemma MessageRoundTrip(m: Message)
    requires PeerPresent(m) && CountFits(m)
    ensures ParseMessage(MessageBytes(m)) == Some(Normal(m))
  {
    var hasMentions, hasChannel := HasBit(m.flags, HAS_MENTIONS), HasBit(m.flags, HAS_CHANNEL);
    var c := Optional8(hasChannel, m.channel);
    Assoc(MessageHead(m), MentionsField(hasMentions, m.mentions), c);
    HeadRoundTrip(m, MentionsField(hasMentions, m.mentions) + c);
    MentionsRoundTrip(hasMentions, m.mentions, c);
    Optional8RoundTrip(hasChannel, m.channel, []);
    assert c + [] == c;
  }

  /** The bound on the mention count is exact: the count is capped but the mentions are all written. */
  lemma MessageRoundTripIff(m: Message)
    requires PeerPresent(m)
    ensures ParseMessage(MessageBytes(m)) == Some(Normal(m)) <==> CountFits(m)
  {
    if CountFits(m) {
      MessageRoundTrip(m);
    } else {
      var c := Optional8(HasBit(m.flags, HAS_CHANNEL), m.channel);
      var tail := MentionsField(true, m.mentions) + c;
      Assoc(MessageHead(m), MentionsField(true, m.mentions), c);
      HeadRoundTrip(m, tail);
      Assoc([255], Mentions(m.mentions), c);
      assert tail[1..] == Mentions(m.mentions) + c;
      MentionListLength(255, [], Mentions(m.mentions) + c);
    }
  }

  // ---- Normalisation ----

  lemma Field8Bound(rest: seq<byte>)
    ensures TakeField8(rest).Some? ==> |TakeField8(rest).value.0| <= 255
  {
  }

  lemma {:induction false} MentionListBound(count: nat, done: seq<seq<byte>>, rest: seq<byte>)
    requires forall i :: 0 <= i < |done| ==> |done[i]| <= 255
    ensures TakeMentionList(count, done, rest).Some? ==>
              forall i :: 0 <= i < |TakeMentionList(count, done, rest).value.0| ==>
                            |TakeMentionList(count, done, rest).value.0[i]| <= 255
    decreases count
  {
    if count > 0 && TakeField8(rest).Some? {
      var (mention, r) := TakeField8(rest).value;
      Field8Bound(rest);
      MentionListBound(count - 1, done + [mention], r);
    }
  }

  lemma ClampAllSame(mentions: seq<seq<byte>>)
    requires forall i :: 0 <= i < |mentions| ==> |mentions[i]| <= 255
    ensures ClampAll(mentions) == mentions
  {
    assert forall i :: 0 <= i < |mentions| ==> Clamp(mentions[i], 255) == mentions[i];
  }

  /** A message's own bytes of content are written again: none are hidden in the encrypted field. */
  predicate ContentRewritten(m: Message) {
    HasBit(m.flags, IS_ENCRYPTED) ==> m.encrypted == []
  }

  lemma ParsedHeadIsNormal(payload: seq<byte>)
    requires ParseHead(payload).Some?
    ensures var m := ParseHead(payload).value.0;
            ContentRewritten(m) ==> Normal(m).(mentions := [], channel := []) == m
  {
    ParsedFixedIsNormal(payload);
    hide ParseFixed, TakeField8;
    var (m, r4) := ParseFixed(payload).value;
    Field8Bound(r4);
    var (_, r5) := TakeOptional8(HasBit(m.flags, HAS_ORIGINAL_SENDER), r4).value;
    Field8Bound(r5);
  }

  lemma ParsedFixedIsNormal(payload: seq<byte>)
    requires ParseFixed(payload).Some?
    ensures var m := ParseFixed(payload).value.0;
            (ContentRewritten(m) ==> FixedPart(m) == m) && m.originalSender == m.recipient == [] && m.senderPeer == None
  {
  }

  /** Whatever parses is in normal form, unless it carries encrypted content. */
  lemma ParsedIsNormal(payload: seq<byte>)
    requires ParseMessage(payload).Some?
    ensures CountFits(ParseMessage(payload).value)
    ensures Normal(ParseMessage(payload).value) == ParseMessage(payload).value <==> ContentRewritten(ParseMessage(payload).value)
  {
    var (head, r0) := ParseHead(payload).value;
    ParsedHeadIsNormal(payload);
    if HasBit(head.flags, HAS_MENTIONS) {
      var (count, r1) := TakeU8(r0);
      MentionListBound(count, [], r1);
      MentionListLength(count, [], r1);
      ClampAllSame(ParseMessage(payload).value.mentions);
    }
    var (_, r1) := TakeMentions(HasBit(head.flags, HAS_MENTIONS), r0).value;
    if HasBit(head.flags, HAS_CHANNEL) {
      Field8Bound(r1);
    }
  }

  /** A parsed message has no more mentions than can be counted, and keeps no content under the encrypted flag. */
  lemma ParsedContentKept(payload: seq<byte>)
    requires ParseMessage(payload).Some?
    ensures var m := ParseMessage(payload).value; CountFits(m) && (HasBit(m.flags, IS_ENCRYPTED) ==> m.content == [])
  {
    hide TakeOptional8, TakePeer;
    var (head, r0) := ParseHead(payload).value;
    if HasBit(head.flags, HAS_MENTIONS) {
      var (count, r1) := TakeU8(r0);
      MentionListLength(count, [], r1);
    }
  }

  /** Parsing, writing and parsing again changes nothing exactly when no content is encrypted,
      however many of the fields came from short reads. */
  lemma Normalisation(payload: seq<byte>)
    requires ParseMessage(payload).Some? && PeerPresent(ParseMessage(payload).value)
    ensures var m := ParseMessage(payload).value;
            ParseMessage(MessageBytes(m)) == Some(m) <==> ContentRewritten(m)
  {
    var m := ParseMessage(payload).value;
    ParsedIsNormal(payload);
    MessageRoundTrip(m);
  }
}
