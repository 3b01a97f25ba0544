/** Concrete inputs on which the code does less than it is for. */
module Counterexamples {
  import opened Bytes
  import opened Packets
  import opened ProtocolWriter
  import opened ProtocolParser
  import opened RoundTrip
  import opened Relay
  import opened Clock
  import opened TrackerModel
  import opened Invariants
  import opened Sending
  import opened Runs
  import opened Records
  import opened Writability

  // ---- The codec ----

  function Empty(flags: byte, id: byte): Message {
    Message(flags, 0, [id], [], [], [], [], [], None, [], [])
  }

  function TextPacket(m: Message): Packet {
    Packet(TYPE_MESSAGE, 3, 0, 0, 1, 0, [], Text(m))
  }

  predicate RelayedExactly(inflate: Inflater, p: Packet)
    requires Writable(p)
  {
    var b := PacketBytes(p);
    |b| > 2 && b[2] >= 1 && RelayBytes(inflate, b) == Some(b[2 := b[2] - 1])
  }

  /** A signature of sixty-four zeros does not survive a relay. */
  lemma SignedPacket(inflate: Inflater)
    ensures !RelayedExactly(inflate, Packet(0x05, 3, 0, HAS_SIGNATURE, 1, 0, seq(64, _ => 0), Raw([])))
  {
    hide PacketBytes, RelayBytes;
    var p := Packet(0x05, 3, 0, HAS_SIGNATURE, 1, 0, seq(64, _ => 0), Raw([]));
    RelayExactIff(inflate, p);
    assert Clamp(p.signature, 255)[0] == 0 && SelfDescribing()[0] == 64;
  }

  /** One byte of encrypted content does not survive a relay. */
  lemma EncryptedMessage(inflate: Inflater)
    ensures !RelayedExactly(inflate, TextPacket(Empty(IS_ENCRYPTED, 1).(content := [42])))
  {
    hide PacketBytes, RelayBytes, MessageBytes;
    var m := Empty(IS_ENCRYPTED, 1).(content := [42]);
    ShortMessage(m);
    RelayExactIff(inflate, TextPacket(m));
  }

  lemma ShortMessage(m: Message)
    requires m == Empty(IS_ENCRYPTED, 1).(content := [42])
    ensures |MessageBytes(m)| <= 65535
  {
    hide Bytes64, Field8, Field16;
    assert |Field8(m.id)| == 2 && |Field8(m.sender)| == 1 by { FieldLength(m.id); FieldLength(m.sender); }
    assert |Field16(m.content)| == 3 by { ContentLength(m.content); }
  }

  lemma FieldLength(s: seq<byte>)
    ensures |Field8(s)| == 1 + Min(|s|, 255)
  {
  }

  lemma ContentLength(s: seq<byte>)
    ensures |Field16(s)| == 2 + Min(|s|, 65535)
  {
  }

  /** A message with 256 mentions is not read back. */
  lemma ManyMentions()
    ensures var m := Empty(HAS_MENTIONS, 1).(mentions := seq(256, _ => []));
            ParseMessage(MessageBytes(m)) != Some(Normal(m))
  {
    hide MessageBytes, ParseMessage, Normal;
    MessageRoundTripIff(Empty(HAS_MENTIONS, 1).(mentions := seq(256, _ => [])));
  }

  // ---- The clock ----

  /** Two announces ten minutes apart leave the clock at the later to arrive. */
  lemma ClockFollowsLast()
    ensures LearnAll(0, [Heard(1000000, 0), Heard(1600000, 0)]) != LearnAll(0, [Heard(1600000, 0), Heard(1000000, 0)])
  {
    OrderMatters(Heard(1000000, 0), Heard(1600000, 0), 1600000);
  }

  /** Just before the 64-bit clock wraps around, a timestamp just after zero leaves the time before the timestamp's window. */
  lemma ClockAcrossTheWrap()
    ensures !WithinWindow(Learn(TWO64 - 5, 0, 3), 0, 3)
  {
    LearnWindow(TWO64 - 5, 0, 3);
  }

  // ---- A packet that is never sent ----

  /** Two neighbours connect, then this node sends two messages of its own, the second stored at the lower address. */
  function TwoMessages(): seq<Event> {
    [Connected(3, [1], 0), LinkSet(3, 512, 1), Connected(4, [2], 0), LinkSet(4, 512, 1),
     Originated(TextPacket(Empty(0, 1)), 2), Originated(TextPacket(Empty(0, 2)), 1)]
  }

  const READY: Connection := Connection(0, true, 1, 512, 0)

  function TwoConnected(): State {
    Initial(0).(connections := map[3 := READY.(handle := 3), 4 := READY.(handle := 4)])
  }

  /** The state after the first `k` events. */
  function After(k: nat): State
    requires k <= 6
  {
    var unset := Connection(0, true, 0, 0, 0);
    if k == 0 then Initial(0)
    else if k == 1 then Initial(0).(connections := map[3 := unset.(handle := 3)])
    else if k == 2 then Initial(0).(connections := map[3 := READY.(handle := 3)])
    else if k == 3 then Initial(0).(connections := map[3 := READY.(handle := 3), 4 := unset.(handle := 4)])
    else if k == 4 then TwoConnected()
    else if k == 5 then
      TwoConnected().(messages := map[[1] := 2], store := map[2 := TextPacket(Empty(0, 1))], broadcast := [2])
    else
      TwoConnected().(messages := map[[1] := 2, [2] := 1],
                      store := map[2 := TextPacket(Empty(0, 1)), 1 := TextPacket(Empty(0, 2))], broadcast := [2, 1])
  }

  lemma LinkSteps(c: Config, k: nat)
    requires k < 4
    ensures Step(c, After(k), TwoMessages()[k]) == After(k + 1)
  {
    hide Receive, Originate, AnnounceAll, SendPackets, Cleanup, Disconnect, AddNeighbour, ConnectionStarted, Touch;
    if k % 2 == 0 {
      assert Connect(After(k), if k == 0 then 3 else 4, if k == 0 then [1] else [2], 0).connections == After(k + 1).connections;
    } else {
      assert SetLink(After(k), if k == 1 then 3 else 4, 512, 1).connections == After(k + 1).connections;
    }
  }

  lemma MessageSteps(c: Config, k: nat)
    requires 4 <= k < 6
    ensures Step(c, After(k), TwoMessages()[k]) == After(k + 1)
  {
    hide Receive, AnnounceAll, SendPackets, Cleanup, Connect, SetLink;
    var t := Step(c, After(k), TwoMessages()[k]);
    assert t.messages == After(k + 1).messages && t.store == After(k + 1).store && t.broadcast == After(k + 1).broadcast;
  }

  lemma {:induction false} RunIsAfter(c: Config, k: nat)
    requires k <= 6
    ensures Run(c, Initial(0), TwoMessages()[..k]) == After(k)
  {
    hide Step;
    if k > 0 {
      RunIsAfter(c, k - 1);
      if k <= 4 {
        LinkSteps(c, k - 1);
      } else {
        MessageSteps(c, k - 1);
      }
      assert TwoMessages()[..k] == TwoMessages()[..k - 1] + [TwoMessages()[k - 1]];
      RunStep(c, Initial(0), TwoMessages()[..k - 1], TwoMessages()[k - 1]);
    }
  }

  lemma TwoMessagesAllowed(c: Config)
    ensures AllowedRun(c, Initial(0), TwoMessages())
    ensures Inv(c.hasher, After(6)) && Run(c, Initial(0), TwoMessages()) == After(6)
  {
    hide Inv, Run;
    var events := TwoMessages();
    forall i | 0 <= i < 6 ensures Allowed(Run(c, Initial(0), events[..i]), events[i]) {
      RunIsAfter(c, i);
    }
    RunIsAfter(c, 6);
    assert events[..6] == events;
    InitialInv(c.hasher, 0);
    RunKeeps(c, Initial(0), events);
  }

  lemma WhoGetsThem(hasher: Hasher, s: State)
    requires s == After(6) && Inv(hasher, s)
    ensures var t := SendPackets(s);
            && t.broadcast == [] && Traced(t.trace, 0, (1, 3)) && !Traced(t.trace, 0, (1, 4))
            && Traced(t.trace, 0, (2, 3)) && Traced(t.trace, 0, (2, 4))
  {
    hide Inv, SendPackets, Traced, CoverFound, SomeReachable, Extends, AllTraced;
    SendPacketsKeeps(hasher, s);
    Covers(s);
    CoverageIff(hasher, s, 0, 3);
    CoverageIff(hasher, s, 0, 4);
    CoverageIff(hasher, s, 1, 3);
    CoverageIff(hasher, s, 1, 4);
  }

  /** The second message goes to the first neighbour only, and is no longer queued. */
  lemma NeverSent(c: Config)
    ensures AllowedRun(c, Initial(0), TwoMessages())
    ensures var t := Run(c, Initial(0), TwoMessages() + [Event.Sending]);
            && t.broadcast == [] && Traced(t.trace, 0, (1, 3)) && !Traced(t.trace, 0, (1, 4))
            && Traced(t.trace, 0, (2, 3)) && Traced(t.trace, 0, (2, 4))
  {
    hide Inv, SendPackets, Run, Traced, After, AllowedRun;
    TwoMessagesAllowed(c);
    RunStep(c, Initial(0), TwoMessages(), Event.Sending);
    WhoGetsThem(c.hasher, After(6));
  }

  lemma Covers(s: State)
    requires s == After(6)
    ensures !CoverFound(s, 0, 3) && !CoverFound(s, 0, 4) && CoverFound(s, 1, 4)
    ensures !SomeReachable(s.connections, 0, 3) && SomeReachable(s.connections, 0, 4)
  {
    assert Reachable(s.connections, 3);
    assert HigherBefore(s.broadcast, 1) by { assert s.broadcast[0] > s.broadcast[1]; }
  }

  // ---- Records and their packets ----

  /** A neighbour connects, and this node sends it a message with the given timestamp. */
  function OneMessage(timestamp: u64): seq<Event> {
    TwoMessages()[..2] + [Originated(Stamped(timestamp), 2), Event.Sending]
  }

  function Stamped(timestamp: u64): Packet {
    TextPacket(Empty(0, 1)).(timestamp := timestamp)
  }

  function StoredOne(timestamp: u64): State {
    After(2).(messages := map[[1] := 2], store := map[2 := Stamped(timestamp)], broadcast := [2])
  }

  lemma OriginatesOne(c: Config, timestamp: u64)
    ensures Step(c, After(2), Originated(Stamped(timestamp), 2)) == StoredOne(timestamp)
  {
    hide Receive, AnnounceAll, SendPackets, Cleanup, Connect, SetLink;
    var t := Step(c, After(2), Originated(Stamped(timestamp), 2));
    assert t.messages == map[[1] := 2] && t.store == map[2 := Stamped(timestamp)];
  }

  ghost predicate SentOne(c: Config, timestamp: u64, t: State) {
    && Inv(c.hasher, t) && (2, 3) in t.sent && t.store == map[2 := Stamped(timestamp)] && t.offset == 0
    && t.connections == map[3 := READY.(handle := 3)]
  }

  lemma SendsOne(c: Config, timestamp: u64, s: State)
    requires s == StoredOne(timestamp) && Inv(c.hasher, s)
    ensures SentOne(c, timestamp, SendPackets(s))
  {
    hide Inv, SendPackets;
    SendPacketsKeeps(c.hasher, s);
    assert Reachable(s.connections, 3) && !CoverFound(s, 0, 3);
    CoverageIff(c.hasher, s, 0, 3);
  }

  lemma AfterOne(c: Config, timestamp: u64)
    ensures AllowedRun(c, Initial(0), OneMessage(timestamp))
    ensures SentOne(c, timestamp, Run(c, Initial(0), OneMessage(timestamp)))
  {
    hide Step, Run, Inv, SendPackets, After, SentOne;
    var first, s := TwoMessages()[..2], Initial(0);
    var a, d := Originated(Stamped(timestamp), 2), Event.Sending;
    TwoMessagesAllowed(c);
    AllowedFirst(c, s, TwoMessages(), 2);
    RunIsAfter(c, 2);
    EmptyAfter();
    OneMore(c, s, first, a);
    OriginatesOne(c, timestamp);
    OneMore(c, s, first + [a], d);
    assert first + [a] + [d] == OneMessage(timestamp);
    InitialInv(c.hasher, 0);
    RunKeeps(c, s, first + [a]);
    SendsOne(c, timestamp, StoredOne(timestamp));
    SendStep(c, StoredOne(timestamp));
  }

  lemma EmptyAfter()
    ensures After(2).store == map[] && After(2).announceAt == 0
  {
  }

  lemma SendStep(c: Config, s: State)
    ensures Step(c, s, Event.Sending) == SendPackets(s)
  {
  }

  /** Eleven minutes and forty seconds in, the cleanup drops a message stamped sixteen minutes and forty seconds, and
      keeps the record that it was sent. */
  lemma RecordOutlives(c: Config, leftover: Leftover)
    ensures var t := Run(c, Initial(0), OneMessage(1000000) + [CleaningUp(700000000, leftover)]);
            (2, 3) in t.sent && 2 !in t.store
  {
    hide Run, Inv, Cleanup;
    AfterOne(c, 1000000);
    var s := Run(c, Initial(0), OneMessage(1000000));
    OneMore(c, Initial(0), OneMessage(1000000), CleaningUp(700000000, leftover));
    RecordOutlivesIff(s, 2, 3, 700000000, leftover);
  }

  /** When the neighbour has gone, the same cleanup keeps a message with a later timestamp and drops the record. */
  lemma RecordLost(c: Config, leftover: Leftover)
    ensures var t := Run(c, Initial(0), OneMessage(1000000000) + [Disconnected(3)] + [CleaningUp(700000000, leftover)]);
            (2, 3) !in t.sent && 2 in t.store
  {
    hide Run, Inv, Cleanup;
    AfterOne(c, 1000000000);
    var s := Run(c, Initial(0), OneMessage(1000000000));
    OneMore(c, Initial(0), OneMessage(1000000000), Disconnected(3));
    OneMore(c, Initial(0), OneMessage(1000000000) + [Disconnected(3)], CleaningUp(700000000, leftover));
    RecordLostIff(Disconnect(s, 3), 2, 3, 700000000, leftover);
  }

  // ---- A message that cannot be written back ----

  /** A message flagged as having a sender peer id, which is empty. */
  function EmptySenderId(): (payload: seq<byte>)
    ensures |payload| == 15
  {
    [HAS_SENDER_PEER] + Bytes64(0) + [1, 7, 0, 0, 0, 0]
  }

  function Framed(payload: seq<byte>): seq<byte>
    requires |payload| <= 65535
  {
    HeaderBytes(Packet(TYPE_MESSAGE, 2, 0, 0, 1, 0, [], Raw([])), |payload|) + (payload + [0])
  }

  lemma EmptySenderIdParses()
    ensures ParseMessage(EmptySenderId()).Some? && StrangeSenderId(EmptySenderId())
  {
    hide ParseFixed, Bytes64, ParseMessage, StrangeSenderId, FixedPart;
    var m := Empty(HAS_SENDER_PEER, 7);
    assert Field8([7]) == [1, 7] && Field8([]) == [0] && Field16([]) == [0, 0] by { ShortFields(); }
    assert EmptySenderId() == [m.flags] + (Bytes64(m.timestamp) + (Field8(m.id) + (Field8(m.sender) + (Field16(m.content) + [0]))));
    FixedRoundTrip(m, [0]);
    assert FixedPart(m).flags == HAS_SENDER_PEER by { FixedFlags(m); }
    EmptyIdAfter(EmptySenderId());
  }

  lemma ShortFields()
    ensures Field8([7]) == [1, 7] && Field8([]) == [0] && Field16([]) == [0, 0]
  {
    Bytes16Shifts(0);
  }

  lemma FixedFlags(m: Message)
    ensures FixedPart(m).flags == m.flags
  {
  }

  lemma EmptyIdAfter(payload: seq<byte>)
    requires |payload| >= 13 && ParseFixed(payload).Some?
    requires ParseFixed(payload).value.0.flags == HAS_SENDER_PEER && ParseFixed(payload).value.1 == [0]
    ensures ParseMessage(payload).Some? && StrangeSenderId(payload)
  {
    hide ParseFixed, DecodePeerId;
    assert TakeField8([0]) == Some(([], []));
  }

  /** Once it has been received, a packet is queued that the writer cannot write. */
  lemma UnwritableMessage(c: Config)
    ensures AllowedRun(c, Initial(0), [Received(3, Framed(EmptySenderId()), 1, 0)])
    ensures QueuesWritable(Initial(0)) && !QueuesWritable(Run(c, Initial(0), [Received(3, Framed(EmptySenderId()), 1, 0)]))
  {
    hide ParsePacket, ParseMessage, EmptySenderId, StrangeSenderId, Step;
    var e := Received(3, Framed(EmptySenderId()), 1, 0);
    EmptySenderIdParses();
    DecodeFramed(c.inflate, Packet(TYPE_MESSAGE, 2, 0, 0, 1, 0, [], Raw([])), EmptySenderId(), [0]);
    assert NewPacket(c, Initial(0), e.bytes).Some?;
    InitialInv(c.hasher, 0);
    StepWritableIff(c, Initial(0), e);
    assert Run(c, Initial(0), []) == Initial(0);
    OneMore(c, Initial(0), [], e);
    assert [] + [e] == [e];
  }
}
