/** Concrete runs in which a node's own announce is sent too often, or not again. */
module AnnounceRuns {
  import opened Bytes
  import opened Packets
  import opened ProtocolWriter
  import opened ProtocolParser
  import opened Relay
  import opened Clock
  import opened Multimap
  import opened TrackerModel
  import opened Invariants
  import opened Sending
  import opened Runs
  import opened Records
  import opened Mesh
  import opened Counterexamples

  // ---- Own announces that come back ----

  /** What a node makes of its own announce when a neighbour has relayed it back. */
  lemma EchoParsed(c: Config, s: State)
    requires AnnounceOk(s.announce) && s.announce.ttl == ANNOUNCE_TTL
    ensures Writable(s.announce) && Writable(NextPacket(s.announce))
    ensures RelayBytes(c.inflate, PacketBytes(s.announce)) == Some(PacketBytes(NextPacket(s.announce)))
    ensures var taken := NewPacket(c, s, PacketBytes(NextPacket(s.announce)));
            && (taken.Some? <==> !Known(s, IdOf(c.hasher, s.announce)))
            && (taken.Some? ==> taken.value.ttl > 0 && IdOf(c.hasher, taken.value) == IdOf(c.hasher, s.announce))
  {
    var p := s.announce;
    var q := NextPacket(p);
    var r := NextPacket(q);
    AnnounceIsGood(p);
    GoodIsWritable(p);
    assert q.ttl == 2 && r.ttl == 1;
    hide PacketBytes, ParsePacket, IdOf, Known, Good, NewPacket, RelayBytes, NextPacket, AnnounceOk;
    GoodNext(c.hasher, p);
    GoodIsWritable(q);
    GoodNext(c.hasher, q);
    RelaysNext(c.inflate, p);
    RelaysNext(c.inflate, q);
    NewUnlessKnown(c, s, PacketBytes(q), r);
  }

  /** Its own announce, come back from `source` and stored at `at`, goes to connection `k`: it is not known yet, did not
      come from there, and nothing recorded, targeted or queued at its own or a higher address stands in the way. */
  ghost predicate EchoGoesTo(c: Config, s: State, k: u16, source: u16, at: Addr) {
    && !Known(s, IdOf(c.hasher, s.announce)) && HandleAt(s, source) != k && !Covered(s, at, k)
    && !(s.announceAt > at && (s.announceAt, k) in s.targeted)
    && forall q :: q in s.broadcast ==> q <= at
  }

  /** Exactly when a node takes its own announce for a new packet and sends it, whether or not it has announced there. */
  lemma EchoSentIff(c: Config, s: State, k: u16, source: u16, at: Addr, nowUs: u64)
    requires Inv(c.hasher, s) && AnnounceOk(s.announce) && s.announce.ttl == ANNOUNCE_TTL
    requires at !in s.store && at != s.announceAt && Reachable(s.connections, k) && source in s.connections
    requires Writable(NextPacket(s.announce))
    ensures var t := Receive(c, s, source, PacketBytes(NextPacket(s.announce)), at, nowUs);
            && t.trace == s.trace
            && (at in t.store <==> !Known(s, IdOf(c.hasher, s.announce)))
            && (at in t.store ==> IdOf(c.hasher, t.store[at]) == IdOf(c.hasher, s.announce))
            && (Traced(SendPackets(t).trace, |s.trace|, (at, k)) <==> EchoGoesTo(c, s, k, source, at))
  {
    var bytes := PacketBytes(NextPacket(s.announce));
    var t := Receive(c, s, source, bytes, at, nowUs);
    EchoParsed(c, s);
    hide Receive, NewPacket, Inv, Taken, Known, Located, IdOf, PacketBytes, SendPackets, NextPacket, AnnounceOk, Covered,
         Emplace, Traced;
    InvHandlePeers(c.hasher, s);
    ReceiveShape(c, s, source, bytes, at, nowUs);
    TakenAt(c, s, source, bytes, at);
    ReceiveConnections(c, s, source, bytes, at, nowUs);
    ReceiveKeeps(c, s, source, bytes, at, nowUs);
    if NewPacket(c, s, bytes).Some? {
      assert t.broadcast == s.broadcast + [at];
      TakenCoverage(c.hasher, s, t, k, source, at);
    } else {
      NotQueued(c.hasher, t, k, at);
    }
  }

  lemma TakenCoverage(hasher: Hasher, s: State, t: State, k: u16, source: u16, at: Addr)
    requires Inv(hasher, s) && Inv(hasher, t) && at !in s.store && Reachable(s.connections, k)
    requires t.broadcast == s.broadcast + [at] && t.sent == Emplace(s.sent, at, source) && t.connections == s.connections
    requires t.targeted == s.targeted && t.announceAt == s.announceAt && t.trace == s.trace
    ensures Traced(SendPackets(t).trace, |s.trace|, (at, k)) <==>
            && HandleAt(s, source) != k && !Covered(s, at, k)
            && !(s.announceAt > at && (s.announceAt, k) in s.targeted)
            && forall q :: q in s.broadcast ==> q <= at
  {
    var i := |s.broadcast|;
    assert BroadcastOk(s.broadcast, s.store) && ConnectionsOk(s.connections);
    hide Inv, SendPackets, Traced, Emplace;
    EmplaceAdds(s.sent, at, source);
    assert t.broadcast[..i] == s.broadcast;
    assert (at, source) in t.sent && HasKey(t.sent, at);
    CoverageIff(hasher, t, i, k);
    assert Covered(t, at, k) <==> HandleAt(s, source) == k || Covered(s, at, k) by { TakenCovered(s, t, k, source, at); }
    assert HigherBefore(t.broadcast, i) <==> exists q :: q in s.broadcast && q > at by { LastHigher(s.broadcast, at); }
  }

  lemma TakenCovered(s: State, t: State, k: u16, source: u16, at: Addr)
    requires t.connections == s.connections && Reachable(s.connections, k) && s.connections[k].handle == k
    requires forall r :: r in t.sent <==> r in s.sent || r == (at, source)
    ensures Covered(t, at, k) <==> HandleAt(s, source) == k || Covered(s, at, k)
  {
    assert (at, source) in t.sent;
    if Covered(s, at, k) {
      CoveredGrows(s, t, at, k);
    }
  }

  lemma LastHigher(queue: seq<Addr>, at: Addr)
    ensures HigherBefore(queue + [at], |queue|) <==> exists q :: q in queue && q > at
  {
    var all := queue + [at];
    if HigherBefore(all, |queue|) {
      var j :| 0 <= j < |queue| && all[j] > all[|queue|];
      assert queue[j] in queue && queue[j] > at;
    }
    if exists q :: q in queue && q > at {
      var q :| q in queue && q > at;
      var j :| 0 <= j < |queue| && queue[j] == q;
      assert all[j] > all[|queue|];
    }
  }

  /** What is not stored is not sent. */
  lemma NotQueued(hasher: Hasher, s: State, k: u16, at: Addr)
    requires Inv(hasher, s) && at !in s.store && at != s.announceAt
    ensures !Traced(SendPackets(s).trace, |s.trace|, (at, k))
  {
    assert BroadcastOk(s.broadcast, s.store);
    SendFrom(hasher, s);
    hide Inv, SendPackets;
  }

  // ---- Announcing in the first place ----

  const CLOCK: u64 := 2000000000000

  /** An announce that has no time to live left: it sets the clock and is not relayed. */
  function ClockPacket(): (p: Packet)
    ensures Writable(p)
  {
    Packet(TYPE_ANNOUNCE, 1, CLOCK, 0, 9, 0, [], Raw([]))
  }

  /** Two neighbours connect, one of them sets the clock, and the node announces itself to both. */
  function Announces(): seq<Event> {
    TwoMessages()[..4] + [Received(3, PacketBytes(ClockPacket()), 5, 0), Announcing(0), Event.Sending]
  }

  function OwnAnnounce(c: Config): Packet {
    Packet(TYPE_ANNOUNCE, ANNOUNCE_TTL, CLOCK, 0, c.me, 0, [], Raw(c.name))
  }

  function ClockSetState(): State {
    TwoConnected().(peers := map[9 := Peer(9, [], [], 0)], handlePeers := map[3 := 9], offset := CLOCK)
  }

  lemma ClockHeard(c: Config)
    ensures Receive(c, TwoConnected(), 3, PacketBytes(ClockPacket()), 5, 0) == ClockSetState()
  {
    hide PacketBytes, ParsePacket, WrittenPayload;
    DecodeWritten(c.inflate, ClockPacket());
    assert WrittenPayload(ClockPacket()) == [] by { EmptyPayload(); }
    var i := ParsePacket(c.inflate, PacketBytes(ClockPacket()));
    assert i == Decoded(TYPE_ANNOUNCE, 0, CLOCK, 0, 9, 0, [], []);
    var t := Receive(c, TwoConnected(), 3, PacketBytes(ClockPacket()), 5, 0);
    assert t.peers == ClockSetState().peers && t.handlePeers == ClockSetState().handlePeers;
  }

  lemma EmptyPayload()
    ensures WrittenPayload(ClockPacket()) == []
  {
  }

  lemma {:induction false} AnnounceStampedAt(s: State, key: nat, k: u16, nowUs: u64)
    requires key <= k && NeedsAnnounce(s, k) && forall j :: key <= j < k ==> !NeedsAnnounce(s, j)
    ensures AnnounceFrom(s, key, nowUs).announce == s.announce.(timestamp := TimeMs(s.offset, nowUs))
    decreases k - key
  {
    hide NeedsAnnounce, HandleAt, TimeMs, EnqueueTargeted;
    if key == k {
      var t := s.(announce := s.announce.(timestamp := TimeMs(s.offset, nowUs)));
      TargetingKeeps(t, t.announceAt, HandleAt(t, key));
      AnnounceStamped(EnqueueTargeted(t, t.announceAt, HandleAt(t, key)), key + 1, nowUs);
    } else {
      AnnounceStampedAt(s, key + 1, k, nowUs);
    }
  }

  lemma NeedsOne(k: u16)
    ensures NeedsAnnounce(ClockSetState(), k) <==> k in {3, 4}
  {
  }

  lemma AnnouncedState(c: Config, s: State)
    requires s == ClockSetState() && Inv(c.hasher, s)
    ensures var t := AnnounceAll(c, s, 0);
            && Inv(c.hasher, t) && t == s.(announce := OwnAnnounce(c), targeted := t.targeted)
            && forall e :: e in t.targeted <==> e in {(0, 3), (0, 4)}
  {
    hide Inv, NeedsAnnounce, AnnounceDue, AnnounceFrom, Extends;
    AnnounceAllExact(c, s, 0);
    var u := SetupAnnounce(c, s);
    SameNeeds(s, u);
    forall k: u16 ensures (NeedsAnnounce(s, k) <==> k in {3, 4}) && (AnnounceDue(s, k) <==> k in {3, 4}) {
      NeedsOne(k);
      NeedsIfDue(c.hasher, s, k);
    }
    AnnounceStampedAt(u, 0, 3, 0);
  }

  /** Both neighbours have had the announce, and nothing else has been sent or stored. */
  ghost predicate AnnouncedToBoth(c: Config, s: State) {
    && Inv(c.hasher, s) && s.announceAt == 0 && s.announce == OwnAnnounce(c) && s.broadcast == [] && s.targeted == []
    && s.store == map[] && s.messages == map[] && s.packets == map[] && s.offset == CLOCK
    && s.connections == TwoConnected().connections
    && (forall r :: r in s.sent <==> r in {(0, 3), (0, 4)})
    && Traced(s.trace, 0, (0, 3)) && Traced(s.trace, 0, (0, 4))
  }

  lemma SentToBoth(c: Config, s: State)
    requires Inv(c.hasher, s) && s == ClockSetState().(announce := OwnAnnounce(c), targeted := s.targeted)
    requires forall e :: e in s.targeted <==> e in {(0, 3), (0, 4)}
    ensures AnnouncedToBoth(c, SendPackets(s))
  {
    hide Inv, SendPackets, Extends;
    SentRecordsAre(c.hasher, s);
    SendPacketsKeeps(c.hasher, s);
    var t := SendPackets(s);
    assert AllTraced(s, t) && (0, 3) in t.sent && (0, 4) in t.sent && s.sent == [] && s.trace == [];
  }

  lemma SentRecordsAre(hasher: Hasher, s: State)
    requires Inv(hasher, s) && s.broadcast == []
    ensures forall r :: r in SendPackets(s).sent <==> r in s.sent || r in s.targeted
  {
    InvWithoutTargeted(hasher, s);
    OnlyTargeted(hasher, s);
    assert TargetedOk(s.targeted, s.sent, s.connections, s.announceAt);
    hide Inv, SendPackets, Sorted;
    TargetedExact(hasher, s, s.targeted);
  }

  lemma OnlyTargeted(hasher: Hasher, s: State)
    requires Inv(hasher, s) && s.broadcast == []
    ensures SendPackets(s).sent == SendTargeted(s, s.targeted).sent
  {
    var t := DropTargeted(s, SendTargeted(s, s.targeted));
    InvWithoutTargeted(hasher, s);
    SendTargetedKeeps(hasher, s, s.targeted);
    assert t.broadcast == [];
    assert SendBroadcasts(t, []) == t;
  }

  /** The run up to the moment the clock is set. */
  function HearsClock(): seq<Event> {
    TwoMessages()[..4] + [Received(3, PacketBytes(ClockPacket()), 5, 0)]
  }

  lemma AfterClock(c: Config)
    ensures AllowedRun(c, Initial(0), HearsClock()) && Run(c, Initial(0), HearsClock()) == ClockSetState()
    ensures Inv(c.hasher, ClockSetState())
  {
    hide Step, Run, Inv, PacketBytes, AllowedRun, TwoMessages, TwoConnected, ClockSetState, ClockPacket, Receive;
    var s := Initial(0);
    ConnectedBoth(c);
    OneMore(c, s, TwoMessages()[..4], Received(3, PacketBytes(ClockPacket()), 5, 0));
    StepIs(c, TwoConnected());
    ClockHeard(c);
    InitialInv(c.hasher, 0);
    RunKeeps(c, s, HearsClock());
  }

  lemma ConnectedBoth(c: Config)
    ensures |TwoMessages()| >= 4 && AllowedRun(c, Initial(0), TwoMessages()[..4])
    ensures Run(c, Initial(0), TwoMessages()[..4]) == TwoConnected()
    ensures TwoConnected().announceAt != 5 && 5 !in TwoConnected().store
  {
    hide Run, Inv, AllowedRun;
    TwoMessagesAllowed(c);
    AllowedFirst(c, Initial(0), TwoMessages(), 4);
    RunIsAfter(c, 4);
  }

  lemma AfterAnnouncing(c: Config)
    ensures AllowedRun(c, Initial(0), HearsClock() + [Announcing(0)])
    ensures Run(c, Initial(0), HearsClock() + [Announcing(0)]) == AnnounceAll(c, ClockSetState(), 0)
  {
    hide Step, Run, Inv, AllowedRun, HearsClock, AnnounceAll;
    AfterClock(c);
    OneMore(c, Initial(0), HearsClock(), Announcing(0));
    StepIs(c, ClockSetState());
  }

  lemma AfterAnnounces(c: Config)
    ensures AllowedRun(c, Initial(0), Announces())
    ensures AnnouncedToBoth(c, Run(c, Initial(0), Announces()))
  {
    hide Step, Run, Inv, AnnouncedToBoth, AllowedRun, AnnounceAll, PacketBytes;
    var t := AnnounceAll(c, ClockSetState(), 0);
    AfterClock(c);
    AfterAnnouncing(c);
    AnnouncedState(c, ClockSetState());
    OneMore(c, Initial(0), HearsClock() + [Announcing(0)], Event.Sending);
    StepIs(c, t);
    SentToBoth(c, t);
    assert HearsClock() + [Announcing(0)] + [Event.Sending] == Announces();
  }

  lemma StepIs(c: Config, s: State)
    ensures Step(c, s, Received(3, PacketBytes(ClockPacket()), 5, 0)) == Receive(c, s, 3, PacketBytes(ClockPacket()), 5, 0)
    ensures Step(c, s, Announcing(0)) == AnnounceAll(c, s, 0)
    ensures Step(c, s, Event.Sending) == SendPackets(s)
  {
    hide PacketBytes, Receive, AnnounceAll, SendPackets;
  }

  // ---- The two runs ----

  /** The announce that the second neighbour relays back is stored as a new packet and goes, under the same id, over the
      handle that has had it already. */
  lemma EchoedAnnounce(c: Config)
    requires |c.name| <= 65535
    ensures Writable(OwnAnnounce(c)) && RelayBytes(c.inflate, PacketBytes(OwnAnnounce(c))).Some?
    ensures var echo := RelayBytes(c.inflate, PacketBytes(OwnAnnounce(c))).value;
            var events := Announces() + [Received(4, echo, 1, 0), Event.Sending];
            var t := Run(c, Initial(0), events);
            && AllowedRun(c, Initial(0), events)
            && Traced(t.trace, 0, (0, 3)) && Traced(t.trace, 0, (1, 3))
            && 1 in t.store && IdOf(c.hasher, t.store[1]) == IdOf(c.hasher, OwnAnnounce(c))
  {
    hide Run, PacketBytes, RelayBytes, Inv, IdOf, Announces, NextPacket, SendPackets, Receive, Reachable, Known, NewPacket,
         Traced, AllowedRun, EchoGoesTo;
    AfterAnnounces(c);
    var s := Run(c, Initial(0), Announces());
    NotKnownYet(c, s);
    EchoParsed(c, s);
    EchoSentIff(c, s, 3, 4, 1, 0);
    EchoRun(c, s, PacketBytes(NextPacket(s.announce)));
  }

  lemma NotKnownYet(c: Config, s: State)
    requires AnnouncedToBoth(c, s) && |c.name| <= 65535
    ensures !Known(s, IdOf(c.hasher, s.announce)) && AnnounceOk(s.announce)
    ensures Reachable(s.connections, 3) && 4 in s.connections && EchoGoesTo(c, s, 3, 4, 1)
  {
    hide Inv, Traced, IdOf;
  }

  lemma EchoRun(c: Config, s: State, echo: seq<byte>)
    requires AllowedRun(c, Initial(0), Announces()) && s == Run(c, Initial(0), Announces())
    requires AnnouncedToBoth(c, s)
    requires var t := Receive(c, s, 4, echo, 1, 0);
             1 in t.store && t.trace == s.trace && Traced(SendPackets(t).trace, |s.trace|, (1, 3))
    ensures var events := Announces() + [Received(4, echo, 1, 0), Event.Sending];
            var t := Run(c, Initial(0), events);
            && AllowedRun(c, Initial(0), events)
            && Traced(t.trace, 0, (0, 3)) && Traced(t.trace, 0, (1, 3))
            && t.store == Receive(c, s, 4, echo, 1, 0).store
  {
    hide Run, Receive, SendPackets, Inv, Announces;
    var a, d := Received(4, echo, 1, 0), Event.Sending;
    var t := Receive(c, s, 4, echo, 1, 0);
    OneMore(c, Initial(0), Announces(), a);
    OneMore(c, Initial(0), Announces() + [a], d);
    assert Announces() + [a] + [d] == Announces() + [a, d];
    ReceiveKeeps(c, s, 4, echo, 1, 0);
    SendPacketsKeeps(c.hasher, t);
    TracedLater(s.trace, SendPackets(t).trace, (0, 3));
  }

  lemma TracedLater(trace: seq<Sent>, trace': seq<Sent>, r: (Addr, u16))
    requires Traced(trace, 0, r) && trace <= trace'
    ensures Traced(trace', 0, r)
  {
    var i :| 0 <= i < |trace| && Pair(trace[i]) == r;
    assert Pair(trace'[i]) == r;
  }

  /** The first neighbour disconnects and connects again, and the node announces itself. */
  function ConnectsAgain(): seq<Event> {
    [Disconnected(3), Connected(3, [1], 0), LinkSet(3, 512, 1), Announcing(0), Event.Sending]
  }

  /** The neighbour that has connected again gets no announce, although it can be sent to and the clock is set. */
  lemma NotAnnouncedAgain(c: Config)
    ensures AllowedRun(c, Initial(0), Announces() + ConnectsAgain())
    ensures var s, t := Run(c, Initial(0), Announces()), Run(c, Initial(0), Announces() + ConnectsAgain());
            && Traced(s.trace, 0, (0, 3)) && !Traced(t.trace, |s.trace|, (0, 3))
            && Reachable(t.connections, 3) && ClockSet(t)
  {
    hide Run, Step, Inv, Announces;
    AfterAnnounces(c);
    var s := Run(c, Initial(0), Announces());
    assert AllowedRun(c, s, ConnectsAgain());
    RunBoth(c, Initial(0), Announces(), ConnectsAgain());
    AtMostOnce(c, s, ConnectsAgain());
    ConnectedAgain(c, s);
  }

  lemma ConnectedAgain(c: Config, s: State)
    requires Inv(c.hasher, s) && s.offset == CLOCK && AllowedRun(c, s, ConnectsAgain())
    ensures var t := Run(c, s, ConnectsAgain()); Reachable(t.connections, 3) && ClockSet(t)
  {
    hide Run, Inv, Receive, AnnounceAll, SendPackets, Cleanup, AllowedRun, Originate;
    var u := Reconnect(s, 3, [1], 0, 512, 1);
    var first := ConnectsAgain()[..3];
    FirstThree(c, s);
    AllowedFirst(c, s, ConnectsAgain(), 3);
    RunKeeps(c, s, first);
    RunStep(c, s, first, Announcing(0));
    RunStep(c, s, first + [Announcing(0)], Event.Sending);
    assert first + [Announcing(0)] + [Event.Sending] == ConnectsAgain();
    AnnounceAllExact(c, u, 0);
    SendPacketsKeeps(c.hasher, AnnounceAll(c, u, 0));
  }

  lemma FirstThree(c: Config, s: State)
    ensures Run(c, s, ConnectsAgain()[..3]) == Reconnect(s, 3, [1], 0, 512, 1)
  {
    hide Receive, AnnounceAll, SendPackets, Cleanup, Originate;
    var events := ConnectsAgain();
    assert events[..3] == [events[0]] + [events[1]] + [events[2]];
    assert Run(c, s, []) == s;
    RunStep(c, s, [], events[0]);
    RunStep(c, s, [events[0]], events[1]);
    RunStep(c, s, [events[0]] + [events[1]], events[2]);
    assert [] + [events[0]] == [events[0]];
  }
}
