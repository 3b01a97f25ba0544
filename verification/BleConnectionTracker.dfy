/** The tracker as an object whose methods update its tables in place. */
module BleConnectionTrackers {
  import opened Bytes
  import opened Packets
  import opened BinaryWriters
  import opened ProtocolWriter
  import opened Clock
  import opened Multimap
  import opened TrackerModel
  import opened Runs
  import opened Duplicates

  lemma {:induction false} FilterSame<T>(keep: T -> bool, keep': T -> bool, s: seq<T>)
    requires forall e :: e in s ==> keep(e) == keep'(e)
    ensures Filter(keep, s) == Filter(keep', s)
  {
    if s != [] {
      assert s[0] in s;
      assert forall e :: e in s[1..] ==> e in s;
      FilterSame(keep, keep', s[1..]);
    }
  }

  /** The bytes handed to the radio are those of the packets sent, in order. */
  ghost predicate RawOk(raw: seq<(u16, seq<byte>)>, log: seq<Sent>) {
    |raw| == |log| &&
    forall i :: 0 <= i < |log| ==> Writable(log[i].content) && raw[i] == (log[i].handle, PacketBytes(log[i].content))
  }

  class BleConnectionTracker {
    const config: Config
    const announceAt: Addr
    var peers: map<u64, Peer>
    var messages: map<seq<byte>, Addr>
    var packets: map<Hash, Addr>
    var store: map<Addr, Packet>
    var announce: Packet
    var connections: map<u16, Connection>
    var availableNeighbours: map<seq<byte>, Connection>
    var timestampOffsetMs: u64
    var handlePeerMap: map<u16, u64>
    var sentConnections: seq<(Addr, u16)>
    var sentPeers: seq<(Addr, u64)>
    var broadcastPackets: seq<Addr>
    var targetedPackets: seq<(Addr, u16)>
    /** What was handed to the radio, and the bytes of it. */
    var sentLog: seq<Sent>
    var rawPackets: seq<(u16, seq<byte>)>

    constructor (config: Config, announceAt: Addr)
      ensures this.config == config && this.announceAt == announceAt
      ensures S() == Initial(announceAt) && rawPackets == []
    {
      this.config, this.announceAt := config, announceAt;
      peers, messages, packets, store, announce := map[], map[], map[], map[], EMPTY_ANNOUNCE;
      connections, availableNeighbours, timestampOffsetMs, handlePeerMap := map[], map[], 0, map[];
      sentConnections, sentPeers, broadcastPackets, targetedPackets, sentLog, rawPackets := [], [], [], [], [], [];
    }

    /** The state the fields stand for. */
    function S(): State
      reads this
    {
      State(peers, messages, packets, store, announce, announceAt, connections, availableNeighbours, timestampOffsetMs,
            handlePeerMap, sentConnections, sentPeers, broadcastPackets, targetedPackets, sentLog)
    }

    // ---- Tables ----

    method ConnectionForConnHandle(key: u16)
      modifies `connections
      ensures S() == ConnectionFor(old(S()), key)
    {
      if key !in connections {
        connections := connections[key := NEW_CONNECTION.(handle := key)];
      }
    }

    method StoreMessageAndReturnIfNew(message: Packet, at: Addr) returns (isNew: bool)
      requires message.body.Text?
      modifies `messages, `store
      ensures isNew <==> !old(Known(S(), IdOf(config.hasher, message)))
      ensures S() == if isNew then Store(config.hasher, old(S()), message, at) else old(S())
    {
      var id := message.body.message.id;
      if id in messages {
        return false;
      }
      messages := messages[id := at];
      store := store[at := message];
      return true;
    }

    method StorePacketAndReturnIfNew(packet: Packet, at: Addr) returns (isNew: bool)
      requires packet.body.Raw?
      modifies `packets, `store
      ensures isNew <==> !old(Known(S(), IdOf(config.hasher, packet)))
      ensures S() == if isNew then Store(config.hasher, old(S()), packet, at) else old(S())
    {
      var id := PacketHash(config.hasher, packet);
      if id in packets {
        return false;
      }
      packets := packets[id := at];
      store := store[at := packet];
      return true;
    }

    method CheckSenderInPeers(sender: u64)
      modifies `peers
      ensures S() == CheckSender(old(S()), sender)
    {
      if sender !in peers {
        peers := peers[sender := Peer(sender, [], [], 0)];
      }
    }

    method EnqueueTargetedPacket(at: Addr, toHandle: u16)
      modifies `connections, `targetedPackets
      ensures S() == EnqueueTargeted(old(S()), at, toHandle)
    {
      if PacketAt(S(), at).ttl > 0 {
        ConnectionForConnHandle(toHandle);
        targetedPackets := Emplace(targetedPackets, at, toHandle);
      }
    }

    method EnqueueBroadcastPacket(at: Addr)
      modifies `broadcastPackets
      ensures S() == EnqueueBroadcast(old(S()), at)
    {
      if PacketAt(S(), at).ttl > 0 {
        broadcastPackets := broadcastPackets + [at];
      }
    }

    method EnqueueBroadcastPacketFrom(at: Addr, key: u16, peer: u64)
      modifies `broadcastPackets, `sentConnections, `sentPeers
      ensures S() == EnqueueBroadcastFrom(old(S()), at, key, peer)
    {
      sentConnections := Emplace(sentConnections, at, key);
      sentPeers := Emplace(sentPeers, at, peer);
      EnqueueBroadcastPacket(at);
    }

    method AddAvailablePeer(address: seq<byte>, nowUs: u64)
      modifies `availableNeighbours
      ensures S() == AddNeighbour(old(S()), address, nowUs)
    {
      if address !in availableNeighbours {
        availableNeighbours := availableNeighbours[address := NEW_CONNECTION];
      }
      availableNeighbours := availableNeighbours[address := availableNeighbours[address].(lastSeenUs := nowUs)];
    }

    method SetConnectionStarted(address: seq<byte>)
      modifies `availableNeighbours
      ensures S() == ConnectionStarted(old(S()), address)
    {
      availableNeighbours := availableNeighbours - {address};
    }

    method ReportConnection(key: u16, address: seq<byte>, nowUs: u64)
      modifies `connections, `availableNeighbours
      ensures S() == Connect(old(S()), key, address, nowUs)
    {
      if address in availableNeighbours {
        connections := connections[key := availableNeighbours[address]];
        availableNeighbours := availableNeighbours - {address};
      }
      var c := Lookup(connections, key);
      c := c.(handle := key);
      c := c.(connected := true);
      c := c.(lastSeenUs := nowUs);
      connections := connections[key := c];
      availableNeighbours := availableNeighbours - {address};
    }

    method ReportDisconnection(key: u16)
      modifies `connections, `handlePeerMap
      ensures S() == Disconnect(old(S()), key)
    {
      connections := connections[key := Lookup(connections, key).(connected := false)];
      handlePeerMap := handlePeerMap - {key};
    }

    method GetAnyDuplicateHandle() returns (duplicate: u16)
      modifies `connections
      ensures duplicate == 0 <==> !HasDuplicate(handlePeerMap)
      ensures duplicate != 0 ==> exists other :: SamePeer(handlePeerMap, duplicate, other)
                                                 && LastSeen(old(S()), duplicate) <= LastSeen(old(S()), other)
                                                 && S() == Touch(Touch(old(S()), duplicate), other)
      ensures duplicate == 0 ==> S() == old(S())
    {
      var other;
      duplicate, other := FindDuplicate(S());
      if duplicate != 0 {
        connections := connections[duplicate := Lookup(connections, duplicate)];
        connections := connections[other := Lookup(connections, other)];
        assert SamePeer(handlePeerMap, duplicate, other);
      }
    }

    // ---- The clock ----

    method PossiblyUpdateTimeOffset(timestamp: u64, nowUs: u64)
      modifies `timestampOffsetMs
      ensures S() == old(S()).(offset := Learn(old(timestampOffsetMs), nowUs, timestamp))
    {
      var ourNow := TimeMs(timestampOffsetMs, nowUs);
      var diff := Signed(timestamp) - Signed(ourNow);
      var diffAbs := if diff < 0 then -diff else diff;
      if diffAbs > MESSAGE_TIMEOUT || timestamp > ourNow {
        timestampOffsetMs := (timestampOffsetMs + diff) % TWO64;
      }
    }

    // ---- Announcing ----

    method SetupAnnounceIfNeeded()
      modifies `announce
      ensures S() == SetupAnnounce(config, old(S()))
    {
      if announce.ttl == ANNOUNCE_TTL {
        return;
      }
      announce := announce.(ttl := ANNOUNCE_TTL);
      announce := announce.(flags := 0);
      announce := announce.(sender := config.me);
      announce := announce.(body := Raw(config.name));
    }

    /** Searches the packet's own records for one that names the connection's handle. */
    method IsRecorded(at: Addr, key: u16) returns (found: bool)
      ensures found <==> Recorded(S(), at, key)
    {
      for i := 0 to |sentConnections|
        invariant forall j :: 0 <= j < i ==>
                                !(sentConnections[j].0 == at && HandleAt(S(), sentConnections[j].1) == HandleAt(S(), key))
      {
        if sentConnections[i].0 == at && HandleAt(S(), sentConnections[i].1) == HandleAt(S(), key) {
          assert sentConnections[i] in S().sent;
          return true;
        }
      }
      return false;
    }

    method AnnounceToConnections(nowUs: u64)
      modifies `announce, `connections, `targetedPackets
      ensures S() == AnnounceAll(config, old(S()), nowUs)
    {
      hide EnqueueTargeted, Recorded, HandleAt;
      SetupAnnounceIfNeeded();
      ghost var start := S();
      for key := 0 to HANDLES
        invariant AnnounceFrom(S(), key, nowUs) == AnnounceFrom(start, 0, nowUs)
      {
        if key in connections && Available(connections[key]) && timestampOffsetMs >= BUILD_TIME_MS {
          var recorded := IsRecorded(announceAt, key);
          if !recorded {
            announce := announce.(timestamp := TimeMs(timestampOffsetMs, nowUs));
            EnqueueTargetedPacket(announceAt, HandleAt(S(), key));
          }
        }
      }
    }

    // ---- Sending ----

    method SendPacketToConnection(at: Addr, key: u16)
      requires Writable(PacketAt(S(), at)) && RawOk(rawPackets, sentLog)
      modifies `rawPackets, `sentLog, `sentConnections
      ensures S() == Transmit(old(S()), at, key) && RawOk(rawPackets, sentLog)
    {
      var packet, handle := PacketAt(S(), at), HandleAt(S(), key);
      var writer := new BinaryWriter();
      WritePacket(writer, packet);
      assert writer.vector == PacketBytes(packet);
      rawPackets := rawPackets + [(handle, writer.vector)];
      sentLog := sentLog + [Sent(at, handle, packet)];
      sentConnections := Emplace(sentConnections, at, key);
    }

    /** Finds the packet's first record and searches from there to the end of the multimap. */
    method IsBlocked(at: Addr, key: u16) returns (blocked: bool)
      requires Sorted(sentConnections)
      ensures blocked <==> Blocked(S(), at, key)
    {
      var search := 0;
      while search < |sentConnections| && sentConnections[search].0 != at
        invariant 0 <= search <= |sentConnections|
        invariant forall j :: 0 <= j < search ==> sentConnections[j].0 != at
      {
        search := search + 1;
      }
      blocked := false;
      ghost var first := search;
      while search < |sentConnections|
        invariant first <= search <= |sentConnections|
        invariant blocked <==> exists j :: first <= j < search && HandleAt(S(), sentConnections[j].1) == HandleAt(S(), key)
      {
        if HandleAt(S(), sentConnections[search].1) == HandleAt(S(), key) {
          blocked := true;
        }
        search := search + 1;
      }
      BlockedBySearch(S(), at, key, first, blocked);
    }

    static lemma BlockedBySearch(s: State, at: Addr, key: u16, first: nat, blocked: bool)
      requires Sorted(s.sent) && first <= |s.sent|
      requires forall j :: 0 <= j < first ==> s.sent[j].0 != at
      requires first < |s.sent| ==> s.sent[first].0 == at
      requires blocked <==> exists j :: first <= j < |s.sent| && HandleAt(s, s.sent[j].1) == HandleAt(s, key)
      ensures blocked <==> Blocked(s, at, key)
    {
      if blocked {
        var j :| first <= j < |s.sent| && HandleAt(s, s.sent[j].1) == HandleAt(s, key);
        assert s.sent[first] in s.sent && s.sent[j] in s.sent && s.sent[j].0 >= at;
      } else if Blocked(s, at, key) {
        var r :| r in s.sent && r.0 >= at && HandleAt(s, r.1) == HandleAt(s, key);
        assert false;
      }
    }

    /** One targeted entry, unless the packet was already sent to that handle. */
    method SendTargetedPacket(at: Addr, key: u16) returns (sent: bool)
      requires RawOk(rawPackets, sentLog) && Sorted(sentConnections) && Writable(PacketAt(S(), at))
      modifies `rawPackets, `sentLog, `sentConnections
      ensures sent <==> !old(Recorded(S(), at, key))
      ensures S() == if sent then Transmit(old(S()), at, key) else old(S())
      ensures RawOk(rawPackets, sentLog) && Sorted(sentConnections)
    {
      var recorded := IsRecorded(at, key);
      sent := !recorded;
      if sent {
        EmplaceAdds(sentConnections, at, key);
        SendPacketToConnection(at, key);
      }
    }

    static lemma SentSinceNext(start: State, s: State, at: Addr, key: u16)
      requires |start.trace| <= |s.trace|
      ensures forall a :: SentSince(start, Transmit(s, at, key), a) <==> SentSince(start, s, a) || a == at
    {
      var t := Transmit(s, at, key);
      assert t.trace[|s.trace|].packet == at;
      forall a | SentSince(start, s, a) ensures SentSince(start, t, a) {
        var i :| |start.trace| <= i < |s.trace| && s.trace[i].packet == a;
        assert t.trace[i].packet == a;
      }
    }

    method SendTargetedPackets() returns (toRemove: set<Addr>)
      requires RawOk(rawPackets, sentLog) && QueuesWritable(S()) && Sorted(sentConnections)
      modifies `rawPackets, `sentLog, `sentConnections
      ensures S() == SendTargeted(old(S()), targetedPackets) && RawOk(rawPackets, sentLog) && Sorted(sentConnections)
      ensures forall a :: a in toRemove <==> SentSince(old(S()), S(), a)
    {
      hide RawOk, Sorted, Writable, Recorded, SentSince, Emplace;
      toRemove := {};
      ghost var start := S();
      assert targetedPackets[0..] == targetedPackets;
      NoneSentSince(start);
      for i := 0 to |targetedPackets|
        invariant RawOk(rawPackets, sentLog) && Sorted(sentConnections) && |start.trace| <= |sentLog|
        invariant SendTargeted(S(), targetedPackets[i..]) == SendTargeted(start, targetedPackets)
        invariant forall a :: a in toRemove <==> SentSince(start, S(), a)
      {
        var (at, key) := targetedPackets[i];
        assert targetedPackets[i] in targetedPackets && targetedPackets[i..][1..] == targetedPackets[i + 1..];
        SentSinceNext(start, S(), at, key);
        var sent := SendTargetedPacket(at, key);
        if sent {
          toRemove := toRemove + {at};
        }
      }
      assert targetedPackets[|targetedPackets|..] == [];
    }

    static lemma NoneSentSince(s: State)
      ensures forall a :: !SentSince(s, s, a)
    {
    }

    /** Erases the targeted entries of the packets that were sent. */
    method RemoveTargeted(toRemove: set<Addr>, ghost start: State)
      requires forall a :: a in toRemove <==> SentSince(start, S(), a)
      modifies `targetedPackets
      ensures S() == DropTargeted(start, old(S()))
    {
      ghost var after := S();
      FilterSame((e: (Addr, u16)) => e.0 !in toRemove, (e: (Addr, u16)) => !SentSince(start, after, e.0), targetedPackets);
      targetedPackets := Filter((e: (Addr, u16)) => e.0 !in toRemove, targetedPackets);
    }

    method SendBroadcastPacket(at: Addr)
      requires RawOk(rawPackets, sentLog) && Sorted(sentConnections) && Writable(PacketAt(S(), at))
      modifies `rawPackets, `sentLog, `sentConnections
      ensures S() == SendBroadcast(old(S()), at, 0) && RawOk(rawPackets, sentLog) && Sorted(sentConnections)
    {
      ghost var start := S();
      for key := 0 to HANDLES
        invariant RawOk(rawPackets, sentLog) && Sorted(sentConnections)
        invariant SendBroadcast(S(), at, key) == SendBroadcast(start, at, 0)
      {
        if key in connections && Available(connections[key]) {
          var blocked := IsBlocked(at, key);
          if !blocked {
            EmplaceAdds(sentConnections, at, key as u16);
            SendPacketToConnection(at, key);
          }
        }
      }
    }

    method SendBroadcastPackets()
      requires RawOk(rawPackets, sentLog) && Sorted(sentConnections) && forall a :: a in broadcastPackets ==> Writable(PacketAt(S(), a))
      modifies `rawPackets, `sentLog, `sentConnections
      ensures S() == SendBroadcasts(old(S()), broadcastPackets) && RawOk(rawPackets, sentLog) && Sorted(sentConnections)
    {
      ghost var start := S();
      assert broadcastPackets[0..] == broadcastPackets;
      for i := 0 to |broadcastPackets|
        invariant RawOk(rawPackets, sentLog) && Sorted(sentConnections)
        invariant SendBroadcasts(S(), broadcastPackets[i..]) == SendBroadcasts(start, broadcastPackets)
      {
        assert broadcastPackets[i] in broadcastPackets && broadcastPackets[i..][1..] == broadcastPackets[i + 1..];
        SendBroadcastPacket(broadcastPackets[i]);
      }
    }

    method SendPackets()
      requires RawOk(rawPackets, sentLog) && QueuesWritable(S()) && Sorted(sentConnections)
      modifies `rawPackets, `sentLog, `sentConnections, `targetedPackets, `broadcastPackets
      ensures S() == TrackerModel.SendPackets(old(S())) && RawOk(rawPackets, sentLog) && Sorted(sentConnections)
    {
      hide SendTargeted, SendBroadcasts, DropTargeted, RawOk, Sorted, Writable;
      if broadcastPackets == [] && targetedPackets == [] {
        NothingToSend(S());
        return;
      }
      ghost var start := S();
      var toRemove := SendTargetedPackets();
      RemoveTargeted(toRemove, start);
      assert S() == DropTargeted(start, SendTargeted(start, start.targeted));
      QueueStaysWritable(start, S());
      SendBroadcastPackets();
      broadcastPackets := [];
    }

    static lemma QueueStaysWritable(s: State, t: State)
      requires t.store == s.store && t.announce == s.announce && t.broadcast == s.broadcast
      requires forall a :: a in s.broadcast ==> Writable(PacketAt(s, a))
      ensures forall a :: a in t.broadcast ==> Writable(PacketAt(t, a))
    {
    }

    static lemma NothingToSend(s: State)
      requires s.broadcast == [] && s.targeted == []
      ensures TrackerModel.SendPackets(s) == s
    {
      assert SendTargeted(s, []) == s;
      assert Filter((e: (Addr, u16)) => !SentSince(s, s, e.0), []) == [];
      assert DropTargeted(s, s) == s;
    }

    // ---- Cleaning up ----

    method CleanupLists(s: State, now: u64, leftover: Leftover)
      modifies `sentConnections, `sentPeers, `broadcastPackets, `targetedPackets
      ensures sentConnections == Filter((e: (Addr, u16)) => !EntryOld(s, e, now, leftover), old(sentConnections))
      ensures sentPeers == Filter((e: (Addr, u64)) => !StoredOld(s, e.0, now, leftover), old(sentPeers))
      ensures broadcastPackets == Filter((a: Addr) => !StoredOld(s, a, now, leftover), old(broadcastPackets))
      ensures targetedPackets == Filter((e: (Addr, u16)) => !EntryOld(s, e, now, leftover), old(targetedPackets))
    {
      hide EntryOld, StoredOld;
      sentConnections := Filter((e: (Addr, u16)) => !EntryOld(s, e, now, leftover), sentConnections);
      sentPeers := Filter((e: (Addr, u64)) => !StoredOld(s, e.0, now, leftover), sentPeers);
      broadcastPackets := Filter((a: Addr) => !StoredOld(s, a, now, leftover), broadcastPackets);
      targetedPackets := Filter((e: (Addr, u16)) => !EntryOld(s, e, now, leftover), targetedPackets);
    }

    method CleanupTables(s: State, now: u64, leftover: Leftover)
      modifies `connections, `availableNeighbours, `messages, `packets, `store
      ensures connections == map k | k in old(connections) && !ConnectionOld(old(connections)[k], now) :: old(connections)[k]
      ensures availableNeighbours ==
              map a | a in old(availableNeighbours) && !ConnectionOld(old(availableNeighbours)[a], now) :: old(availableNeighbours)[a]
      ensures messages == map m | m in old(messages) && !StoredOld(s, old(messages)[m], now, leftover) :: old(messages)[m]
      ensures packets == map h | h in old(packets) && !StoredOld(s, old(packets)[h], now, leftover) :: old(packets)[h]
      ensures store == map a | a in old(store) && !PacketOld(old(store)[a], now) :: old(store)[a]
    {
      hide StoredOld, PacketOld, ConnectionOld;
      connections := map k | k in connections && !ConnectionOld(connections[k], now) :: connections[k];
      availableNeighbours := map a | a in availableNeighbours && !ConnectionOld(availableNeighbours[a], now) :: availableNeighbours[a];
      messages := map m | m in messages && !StoredOld(s, messages[m], now, leftover) :: messages[m];
      packets := map h | h in packets && !StoredOld(s, packets[h], now, leftover) :: packets[h];
      store := map a | a in store && !PacketOld(store[a], now) :: store[a];
    }

    method CleanupStaleItems(nowUs: u64, leftover: Leftover)
      modifies this
      ensures S() == Cleanup(old(S()), nowUs, leftover) && rawPackets == old(rawPackets)
    {
      hide EntryOld, StoredOld, PacketOld, ConnectionOld, Filter;
      var now, s := TimeMs(timestampOffsetMs, nowUs), S();
      CleanupLists(s, now, leftover);
      CleanupTables(s, now, leftover);
    }
  }
}
