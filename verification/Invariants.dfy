/** What every operation keeps. */
module Invariants {
  import opened Bytes
  import opened Packets
  import opened ProtocolParser
  import opened Relay
  import opened Clock
  import opened Multimap
  import opened TrackerModel

  // ---- The invariant ----

  /** A connected entry stores its own key as its handle. */
  ghost predicate ConnectionsOk(connections: map<u16, Connection>) {
    forall k :: k in connections && connections[k].connected ==> connections[k].handle == k
  }

  /** Every connection named by a record is in the table; a connection that was announced to stores its own key. */
  ghost predicate SentOk(sent: seq<(Addr, u16)>, connections: map<u16, Connection>, announceAt: Addr) {
    && Sorted(sent)
    && (forall r :: r in sent ==> r.1 in connections)
    && (forall r :: r in sent && r.0 == announceAt ==> connections[r.1].handle == r.1)
  }

  /** Only announces are targeted, at connections in the table, and never where one was already sent. */
  ghost predicate TargetedOk(
    targeted: seq<(Addr, u16)>, sent: seq<(Addr, u16)>, connections: map<u16, Connection>, announceAt: Addr)
  {
    && Sorted(targeted)
    && (forall e :: e in targeted ==> e.0 == announceAt && e.1 in connections && connections[e.1].handle == e.1)
    && (forall e :: e in targeted ==> e !in sent)
  }

  /** The packet with this id is stored at this address. */
  predicate Located(messages: map<seq<byte>, Addr>, packets: map<Hash, Addr>, id: PacketId, at: Addr) {
    match id
    case MessageId(m) => m in messages && messages[m] == at
    case HashId(h) => h in packets && packets[h] == at
  }

  /** The indexes and the stored packets describe each other; the announce has an address of its own. */
  ghost predicate StoresOk(
    hasher: Hasher, messages: map<seq<byte>, Addr>, packets: map<Hash, Addr>, store: map<Addr, Packet>, announceAt: Addr)
  {
    && announceAt !in store
    && (forall a :: a in store ==> Located(messages, packets, IdOf(hasher, store[a]), a))
    && (forall m :: m in messages ==> messages[m] in store && IdOf(hasher, store[messages[m]]) == MessageId(m))
    && (forall h :: h in packets ==> packets[h] in store && IdOf(hasher, store[packets[h]]) == HashId(h))
  }

  /** No packet is queued twice; every queued one is still stored, and may still travel. */
  ghost predicate BroadcastOk(broadcast: seq<Addr>, store: map<Addr, Packet>) {
    Distinct(broadcast) && forall a :: a in broadcast ==> a in store && store[a].ttl > 0
  }

  /** Every packet and peer in the list of peers is still stored. */
  ghost predicate SentPeersOk(sentPeers: seq<(Addr, u64)>, store: map<Addr, Packet>, peers: map<u64, Peer>) {
    forall r :: r in sentPeers ==> r.0 in store && r.1 in peers
  }

  /** The peer a message names as its sender is known: the writer follows that reference. */
  predicate SenderIn(p: Packet, peers: map<u64, Peer>) {
    p.body.Text? && p.body.message.senderPeer.Some? ==> p.body.message.senderPeer.value in peers
  }

  ghost predicate SendersOk(store: map<Addr, Packet>, peers: map<u64, Peer>) {
    forall a :: a in store ==> SenderIn(store[a], peers)
  }

  ghost predicate HandlePeersOk(handlePeers: map<u16, u64>, peers: map<u64, Peer>) {
    forall k :: k in handlePeers ==> handlePeers[k] in peers
  }

  ghost predicate Inv(hasher: Hasher, s: State) {
    && ConnectionsOk(s.connections)
    && SentOk(s.sent, s.connections, s.announceAt)
    && TargetedOk(s.targeted, s.sent, s.connections, s.announceAt)
    && StoresOk(hasher, s.messages, s.packets, s.store, s.announceAt)
    && BroadcastOk(s.broadcast, s.store)
    && SentPeersOk(s.sentPeers, s.store, s.peers)
    && HandlePeersOk(s.handlePeers, s.peers)
    && SendersOk(s.store, s.peers)
  }

  // ---- What is sent ----

  function Pair(x: Sent): (Addr, u16) {
    (x.packet, x.handle)
  }

  /** Records only grow, and everything sent since went, for the first time, where no earlier record says it had gone. */
  ghost predicate Grows(trace: seq<Sent>, sent: seq<(Addr, u16)>, trace': seq<Sent>, sent': seq<(Addr, u16)>) {
    && trace <= trace'
    && (forall r :: r in sent ==> r in sent')
    && (forall i :: |trace| <= i < |trace'| ==> Pair(trace'[i]) in sent' && Pair(trace'[i]) !in sent)
    && (forall i, j :: |trace| <= i < j < |trace'| ==> Pair(trace'[i]) != Pair(trace'[j]))
  }

  ghost predicate Extends(s: State, t: State) {
    s.announceAt == t.announceAt && Grows(s.trace, s.sent, t.trace, t.sent)
  }

  /** Every record made since belongs to something sent since. */
  ghost predicate AllTraced(s: State, t: State) {
    forall r :: r in t.sent && r !in s.sent ==> Traced(t.trace, |s.trace|, r)
  }

  ghost predicate Traced(trace: seq<Sent>, from: nat, r: (Addr, u16)) {
    exists i :: from <= i < |trace| && Pair(trace[i]) == r
  }

  lemma AllTracedTransitive(s: State, t: State, u: State)
    requires s.trace <= t.trace <= u.trace && AllTraced(s, t) && AllTraced(t, u)
    ensures AllTraced(s, u)
  {
    forall r | r in u.sent && r !in s.sent ensures Traced(u.trace, |s.trace|, r) {
      if r in t.sent {
        var i :| |s.trace| <= i < |t.trace| && Pair(t.trace[i]) == r;
        assert u.trace[i] == t.trace[i];
      } else {
        var i :| |t.trace| <= i < |u.trace| && Pair(u.trace[i]) == r;
      }
    }
  }

  lemma ExtendsTransitive(s: State, t: State, u: State)
    requires Extends(s, t) && Extends(t, u)
    ensures Extends(s, u)
  {
    forall i | |s.trace| <= i < |u.trace|
      ensures Pair(u.trace[i]) in u.sent && Pair(u.trace[i]) !in s.sent
    {
      if i < |t.trace| {
        assert u.trace[i] == t.trace[i];
      }
    }
    forall i, j | |s.trace| <= i < j < |u.trace|
      ensures Pair(u.trace[i]) != Pair(u.trace[j])
    {
      if i < |t.trace| {
        assert u.trace[i] == t.trace[i];
        if j < |t.trace| {
          assert u.trace[j] == t.trace[j];
        }
      }
    }
  }

  lemma SentItself(s: State, at: Addr, key: u16)
    requires (at, key) in s.sent
    ensures Recorded(s, at, key)
  {
    assert HandleAt(s, (at, key).1) == HandleAt(s, key);
  }

  /** Sending to a connection that stores its own key, where no record says it was sent. */
  lemma TransmitExtends(hasher: Hasher, s: State, at: Addr, key: u16)
    requires Inv(hasher, s) && key in s.connections && s.connections[key].handle == key && !Recorded(s, at, key)
    requires (at, key) !in s.targeted
    ensures Inv(hasher, Transmit(s, at, key)) && Extends(s, Transmit(s, at, key)) && AllTraced(s, Transmit(s, at, key))
  {
    EmplaceAdds(s.sent, at, key);
    assert Pair(Transmit(s, at, key).trace[|s.trace|]) == (at, key);
    hide StoresOk, BroadcastOk, SentPeersOk, HandlePeersOk, SendersOk, ConnectionsOk, Sorted;
    if (at, key) in s.sent {
      SentItself(s, at, key);
      assert false;
    }
  }

  // ---- Connections and peers ----

  lemma ConnectionForKeeps(hasher: Hasher, s: State, key: u16)
    requires Inv(hasher, s)
    ensures Inv(hasher, ConnectionFor(s, key)) && Extends(s, ConnectionFor(s, key))
    ensures key in ConnectionFor(s, key).connections
  {
    hide StoresOk, SentPeersOk, BroadcastOk, HandlePeersOk, SendersOk, Sorted, Grows;
    SameGrows(s);
  }

  lemma SetLinkKeeps(hasher: Hasher, s: State, key: u16, mtu: u16, valueHandle: u16)
    requires Inv(hasher, s)
    ensures Inv(hasher, SetLink(s, key, mtu, valueHandle)) && Extends(s, SetLink(s, key, mtu, valueHandle))
  {
    ConnectionForKeeps(hasher, s, key);
  }

  lemma ConnectKeeps(hasher: Hasher, s: State, key: u16, address: seq<byte>, nowUs: u64)
    requires Inv(hasher, s)
    ensures Inv(hasher, Connect(s, key, address, nowUs)) && Extends(s, Connect(s, key, address, nowUs))
  {
  }

  lemma DisconnectKeeps(hasher: Hasher, s: State, key: u16)
    requires Inv(hasher, s)
    ensures Inv(hasher, Disconnect(s, key)) && Extends(s, Disconnect(s, key))
  {
  }

  lemma CheckSenderKeeps(hasher: Hasher, s: State, id: u64)
    requires Inv(hasher, s)
    ensures Inv(hasher, CheckSender(s, id)) && Extends(s, CheckSender(s, id)) && id in CheckSender(s, id).peers
    ensures CheckSender(s, id) == s.(peers := CheckSender(s, id).peers)
  {
    hide StoresOk, SentOk, TargetedOk, ConnectionsOk, BroadcastOk;
  }

  /** Changes to the peers that lose none of them, and to who is reached where. */
  ghost predicate PeersChange(s: State, t: State) {
    && t == s.(peers := t.peers, handlePeers := t.handlePeers, offset := t.offset)
    && s.peers.Keys <= t.peers.Keys
    && HandlePeersOk(t.handlePeers, t.peers)
  }

  lemma PeersChangeKeeps(hasher: Hasher, s: State, t: State)
    requires Inv(hasher, s) && PeersChange(s, t)
    ensures Inv(hasher, t) && Extends(s, t)
  {
    hide StoresOk, SentOk, TargetedOk, ConnectionsOk, BroadcastOk;
    assert forall id :: id in s.peers ==> id in t.peers;
  }

  lemma CheckSenderChange(s: State, id: u64)
    requires HandlePeersOk(s.handlePeers, s.peers)
    ensures PeersChange(s, CheckSender(s, id)) && id in CheckSender(s, id).peers
  {
  }

  lemma NamePeerChange(s: State, id: u64, name: seq<byte>, ttl: byte, key: u16)
    requires HandlePeersOk(s.handlePeers, s.peers)
    ensures PeersChange(s, NamePeer(s, id, name, ttl, key))
  {
  }

  /** Learning from a packet changes peers and the clock only. */
  lemma LearnedChange(s: State, key: u16, i: Incoming, nowUs: u64)
    requires HandlePeersOk(s.handlePeers, s.peers) && i.Decoded?
    ensures PeersChange(s, Learned(s, key, i, nowUs))
  {
    hide PeerSeen, Learn, CheckSender, NamePeer;
    CheckSenderChange(s, i.sender);
    if i.packetType == TYPE_MESSAGE && PeerSeen(i.payload).Some? {
      CheckSenderChange(CheckSender(s, i.sender), PeerSeen(i.payload).value);
    }
    NamePeerChange(s, i.sender, i.payload, i.ttl, key);
  }

  lemma LearnedKeeps(hasher: Hasher, s: State, key: u16, i: Incoming, nowUs: u64)
    requires Inv(hasher, s) && i.Decoded?
    ensures Inv(hasher, Learned(s, key, i, nowUs)) && Extends(s, Learned(s, key, i, nowUs))
    ensures PeersChange(s, Learned(s, key, i, nowUs))
  {
    hide Learned;
    LearnedChange(s, key, i, nowUs);
    PeersChangeKeeps(hasher, s, Learned(s, key, i, nowUs));
  }

  // ---- Accepting packets ----

  lemma StoresAddMessage(
    hasher: Hasher, messages: map<seq<byte>, Addr>, packets: map<Hash, Addr>, store: map<Addr, Packet>, announceAt: Addr,
    m: seq<byte>, p: Packet, at: Addr)
    requires StoresOk(hasher, messages, packets, store, announceAt)
    requires IdOf(hasher, p) == MessageId(m) && m !in messages && at !in store && at != announceAt
    ensures StoresOk(hasher, messages[m := at], packets, store[at := p], announceAt)
  {
    hide IdOf;
  }

  lemma StoresAddPacket(
    hasher: Hasher, messages: map<seq<byte>, Addr>, packets: map<Hash, Addr>, store: map<Addr, Packet>, announceAt: Addr,
    h: Hash, p: Packet, at: Addr)
    requires StoresOk(hasher, messages, packets, store, announceAt)
    requires IdOf(hasher, p) == HashId(h) && h !in packets && at !in store && at != announceAt
    ensures StoresOk(hasher, messages, packets[h := at], store[at := p], announceAt)
  {
    hide IdOf;
  }

  lemma StoreKeeps(hasher: Hasher, s: State, p: Packet, at: Addr)
    requires Inv(hasher, s) && !Known(s, IdOf(hasher, p)) && at !in s.store && at != s.announceAt && SenderIn(p, s.peers)
    ensures Inv(hasher, Store(hasher, s, p, at)) && Extends(s, Store(hasher, s, p, at))
    ensures Store(hasher, s, p, at).store == s.store[at := p]
  {
    hide SentOk, TargetedOk, HandlePeersOk, ConnectionsOk, StoresOk, IdOf;
    match IdOf(hasher, p) {
      case MessageId(m) => StoresAddMessage(hasher, s.messages, s.packets, s.store, s.announceAt, m, p, at);
      case HashId(h) => StoresAddPacket(hasher, s.messages, s.packets, s.store, s.announceAt, h, p, at);
    }
    assert BroadcastOk(s.broadcast, s.store[at := p]);
    assert SentPeersOk(s.sentPeers, s.store[at := p], s.peers);
  }

  lemma EnqueueKeeps(hasher: Hasher, s: State, at: Addr, key: u16, peer: u64)
    requires Inv(hasher, s) && at in s.store && at !in s.broadcast && key in s.connections && peer in s.peers
    ensures Inv(hasher, EnqueueBroadcastFrom(s, at, key, peer)) && Extends(s, EnqueueBroadcastFrom(s, at, key, peer))
  {
    hide StoresOk, HandlePeersOk, SendersOk, ConnectionsOk, Sorted;
    EmplaceAdds(s.sent, at, key);
    EmplaceAdds(s.sentPeers, at, peer);
    assert at != s.announceAt by {
      assert StoresOk(hasher, s.messages, s.packets, s.store, s.announceAt);
      NotAnnounce(hasher, s);
    }
  }

  lemma NotAnnounce(hasher: Hasher, s: State)
    requires Inv(hasher, s)
    ensures s.announceAt !in s.store
    ensures forall a :: a in s.broadcast ==> a != s.announceAt
  {
  }

  lemma AcceptKeeps(hasher: Hasher, s: State, p: Packet, at: Addr, key: u16, peer: u64)
    requires Inv(hasher, s) && at !in s.store && at != s.announceAt && key in s.connections && peer in s.peers
    requires SenderIn(p, s.peers)
    ensures Inv(hasher, Accept(hasher, s, p, at, key, peer)) && Extends(s, Accept(hasher, s, p, at, key, peer))
  {
    if !Known(s, IdOf(hasher, p)) {
      StoreKeeps(hasher, s, p, at);
      var t := Store(hasher, s, p, at);
      EnqueueKeeps(hasher, t, at, key, peer);
      ExtendsTransitive(s, t, EnqueueBroadcastFrom(t, at, key, peer));
    }
  }

  lemma ReceiveKeeps(c: Config, s: State, key: u16, bytes: seq<byte>, at: Addr, nowUs: u64)
    requires Inv(c.hasher, s) && at !in s.store && at != s.announceAt
    ensures Inv(c.hasher, Receive(c, s, key, bytes, at, nowUs)) && Extends(s, Receive(c, s, key, bytes, at, nowUs))
  {
    hide Inv, Extends, ParsePacket, Accept, AsPacket, Learned;
    var t := ConnectionFor(s, key);
    ConnectionForKeeps(c.hasher, s, key);
    var i := ParsePacket(c.inflate, bytes);
    if i.Decoded? {
      LearnedKeeps(c.hasher, t, key, i, nowUs);
      var u := Learned(t, key, i, nowUs);
      ExtendsTransitive(s, t, u);
      if AsPacket(i).Some? {
        CheckSenderKeeps(c.hasher, u, i.sender);
        var v := CheckSender(u, i.sender);
        SenderLearned(t, key, i, nowUs);
        ExtendsTransitive(s, u, v);
        AcceptKeeps(c.hasher, v, AsPacket(i).value, at, key, i.sender);
        ExtendsTransitive(s, v, Accept(c.hasher, v, AsPacket(i).value, at, key, i.sender));
      }
    }
  }

  /** Whoever a message names as its sender has been registered by the time it is stored. */
  lemma SenderLearned(s: State, key: u16, i: Incoming, nowUs: u64)
    requires i.Decoded? && AsPacket(i).Some?
    ensures SenderIn(AsPacket(i).value, CheckSender(Learned(s, key, i, nowUs), i.sender).peers)
  {
    hide Learn, ParseHead, TakeMentions, TakeOptional8;
  }

  lemma OriginateKeeps(hasher: Hasher, s: State, p: Packet, at: Addr)
    requires Inv(hasher, s) && at !in s.store && at != s.announceAt && SenderIn(p, s.peers)
    ensures Inv(hasher, Originate(hasher, s, p, at)) && Extends(s, Originate(hasher, s, p, at))
  {
    if !Known(s, IdOf(hasher, p)) {
      StoreKeeps(hasher, s, p, at);
    }
  }

  // ---- Announcing ----

  lemma AnnounceOneKeeps(hasher: Hasher, s: State, key: u16, nowUs: u64)
    requires Inv(hasher, s) && NeedsAnnounce(s, key)
    ensures var t := s.(announce := s.announce.(timestamp := TimeMs(s.offset, nowUs)));
            var u := EnqueueTargeted(t, t.announceAt, HandleAt(t, key));
            && Inv(hasher, u) && Extends(s, u)
            && u.connections == s.connections
  {
    hide StoresOk, SentPeersOk, BroadcastOk, HandlePeersOk, SendersOk, Sorted;
    EmplaceAdds(s.targeted, s.announceAt, key);
    if (s.announceAt, key) in s.sent {
      SentItself(s, s.announceAt, key);
      assert false;
    }
  }

  lemma {:induction false} AnnounceFromKeeps(hasher: Hasher, s: State, key: nat, nowUs: u64)
    requires Inv(hasher, s) && key <= HANDLES
    ensures Inv(hasher, AnnounceFrom(s, key, nowUs)) && Extends(s, AnnounceFrom(s, key, nowUs))
    ensures AnnounceFrom(s, key, nowUs).connections == s.connections
    decreases HANDLES - key
  {
    hide Inv, Grows, NeedsAnnounce;
    if key == HANDLES {
      SameGrows(s);
    } else if NeedsAnnounce(s, key) {
      AnnounceOneKeeps(hasher, s, key, nowUs);
      var t := s.(announce := s.announce.(timestamp := TimeMs(s.offset, nowUs)));
      var u := EnqueueTargeted(t, t.announceAt, HandleAt(t, key));
      AnnounceFromKeeps(hasher, u, key + 1, nowUs);
      ExtendsTransitive(s, u, AnnounceFrom(u, key + 1, nowUs));
    } else {
      AnnounceFromKeeps(hasher, s, key + 1, nowUs);
    }
  }

  lemma SameGrows(s: State)
    ensures Grows(s.trace, s.sent, s.trace, s.sent)
  {
  }

  // ---- Sending ----

  /** A run of transmissions: only the trace and the records change, and they match. */
  ghost predicate Transmits(s: State, t: State) {
    Extends(s, t) && AllTraced(s, t) && t == s.(trace := t.trace, sent := t.sent)
  }

  lemma TransmitsTransitive(s: State, t: State, u: State)
    requires Transmits(s, t) && Transmits(t, u)
    ensures Transmits(s, u)
  {
    ExtendsTransitive(s, t, u);
    AllTracedTransitive(s, t, u);
  }

  lemma {:induction false} SendTargetedKeeps(hasher: Hasher, s: State, queue: seq<(Addr, u16)>)
    requires Inv(hasher, s.(targeted := []))
    requires forall e :: e in queue ==> e.1 in s.connections && s.connections[e.1].handle == e.1
    ensures Inv(hasher, SendTargeted(s, queue).(targeted := [])) && Transmits(s, SendTargeted(s, queue))
    decreases |queue|
  {
    hide Inv, Transmits, Recorded;
    if queue == [] {
      SameTransmits(s);
    } else {
      var (at, key) := queue[0];
      assert queue[0] in queue;
      assert forall e :: e in queue[1..] ==> e in queue;
      if Recorded(s, at, key) {
        SendTargetedKeeps(hasher, s, queue[1..]);
      } else {
        var t := Transmit(s, at, key);
        TransmitTargeted(hasher, s, at, key);
        SendTargetedKeeps(hasher, t, queue[1..]);
        TransmitsTransitive(s, t, SendTargeted(t, queue[1..]));
      }
    }
  }

  lemma TransmitTargeted(hasher: Hasher, s: State, at: Addr, key: u16)
    requires Inv(hasher, s.(targeted := [])) && key in s.connections && s.connections[key].handle == key
    requires !Recorded(s, at, key)
    ensures Inv(hasher, Transmit(s, at, key).(targeted := [])) && Transmits(s, Transmit(s, at, key))
  {
    var s' := s.(targeted := []);
    assert !Recorded(s', at, key);
    TransmitExtends(hasher, s', at, key);
    assert Transmit(s', at, key) == Transmit(s, at, key).(targeted := []);
    hide Inv, Grows, Recorded;
  }

  lemma BlockedIfRecorded(s: State, at: Addr, key: u16)
    requires Recorded(s, at, key)
    ensures Blocked(s, at, key)
  {
    var r :| r in s.sent && r.0 == at && HandleAt(s, r.1) == HandleAt(s, key);
    assert HasKey(s.sent, at);
  }

  lemma TransmitBroadcast(hasher: Hasher, s: State, at: Addr, key: u16)
    requires Inv(hasher, s) && at != s.announceAt && key in s.connections && Available(s.connections[key])
    requires !Blocked(s, at, key)
    ensures Inv(hasher, Transmit(s, at, key)) && Transmits(s, Transmit(s, at, key))
  {
    if Recorded(s, at, key) {
      BlockedIfRecorded(s, at, key);
      assert false;
    }
    TransmitExtends(hasher, s, at, key);
  }

  lemma {:induction false} SendBroadcastKeeps(hasher: Hasher, s: State, at: Addr, key: nat)
    requires Inv(hasher, s) && at != s.announceAt && key <= HANDLES
    ensures Inv(hasher, SendBroadcast(s, at, key)) && Transmits(s, SendBroadcast(s, at, key))
    decreases HANDLES - key
  {
    hide Inv, Transmits, Blocked;
    if key == HANDLES {
      SameTransmits(s);
    } else if key in s.connections && Available(s.connections[key]) && !Blocked(s, at, key) {
      TransmitBroadcast(hasher, s, at, key);
      var t := Transmit(s, at, key);
      SendBroadcastKeeps(hasher, t, at, key + 1);
      TransmitsTransitive(s, t, SendBroadcast(t, at, key + 1));
    } else {
      SendBroadcastKeeps(hasher, s, at, key + 1);
    }
  }

  lemma SameTransmits(s: State)
    ensures Transmits(s, s)
  {
  }

  lemma {:induction false} SendBroadcastsKeeps(hasher: Hasher, s: State, queue: seq<Addr>)
    requires Inv(hasher, s) && forall a :: a in queue ==> a != s.announceAt
    ensures Inv(hasher, SendBroadcasts(s, queue)) && Transmits(s, SendBroadcasts(s, queue))
    decreases |queue|
  {
    hide Inv;
    if queue == [] {
      SameTransmits(s);
    } else {
      assert queue[0] in queue;
      assert forall a :: a in queue[1..] ==> a in queue;
      SendBroadcastKeeps(hasher, s, queue[0], 0);
      var t := SendBroadcast(s, queue[0], 0);
      assert t.announceAt == s.announceAt;
      SendBroadcastsKeeps(hasher, t, queue[1..]);
      TransmitsTransitive(s, t, SendBroadcasts(t, queue[1..]));
    }
  }

  /** With nothing but announces targeted, the first of them is always sent, so all of them leave the queue. */
  lemma TargetedDrains(hasher: Hasher, s: State)
    requires Inv(hasher, s)
    ensures DropTargeted(s, SendTargeted(s, s.targeted)).targeted == []
  {
    var t := SendTargeted(s, s.targeted);
    var left := DropTargeted(s, t).targeted;
    InvWithoutTargeted(hasher, s);
    SendTargetedKeeps(hasher, s, s.targeted);
    if left != [] {
      var e := left[0];
      assert e in left && e in s.targeted && s.targeted[0] in s.targeted;
      FirstIsSent(hasher, s);
      assert false;
    }
  }

  lemma InvWithoutTargeted(hasher: Hasher, s: State)
    requires Inv(hasher, s)
    ensures Inv(hasher, s.(targeted := []))
  {
  }

  lemma NotRecorded(hasher: Hasher, s: State, e: (Addr, u16))
    requires Inv(hasher, s) && e in s.targeted
    ensures !Recorded(s, e.0, e.1)
  {
    forall r | r in s.sent && r.0 == e.0 ensures HandleAt(s, r.1) != HandleAt(s, e.1) {
      assert r != e;
    }
  }

  lemma FirstIsSent(hasher: Hasher, s: State)
    requires Inv(hasher, s) && s.targeted != []
    ensures SentSince(s, SendTargeted(s, s.targeted), s.announceAt)
  {
    var (at, key) := s.targeted[0];
    assert s.targeted[0] in s.targeted;
    NotRecorded(hasher, s, s.targeted[0]);
    InvWithoutTargeted(hasher, s);
    TransmitTargeted(hasher, s, at, key);
    var t := Transmit(s, at, key);
    assert forall e :: e in s.targeted[1..] ==> e in s.targeted;
    SendTargetedKeeps(hasher, t, s.targeted[1..]);
    var u := SendTargeted(t, s.targeted[1..]);
    assert u.trace[|s.trace|] == t.trace[|s.trace|];
  }

  /** Sending keeps the invariant, sends nothing twice and leaves both queues empty. */
  lemma SendPacketsKeeps(hasher: Hasher, s: State)
    requires Inv(hasher, s)
    ensures var t := SendPackets(s);
            && Inv(hasher, t) && Extends(s, t) && AllTraced(s, t)
            && t.broadcast == [] && t.targeted == []
            && t == s.(trace := t.trace, sent := t.sent, broadcast := [], targeted := [])
  {
    InvWithoutTargeted(hasher, s);
    SendTargetedKeeps(hasher, s, s.targeted);
    TargetedDrains(hasher, s);
    var t := SendTargeted(s, s.targeted);
    var u := DropTargeted(s, t);
    assert u == t.(targeted := []);
    NotAnnounce(hasher, s);
    SendBroadcastsKeeps(hasher, u, u.broadcast);
    var v := SendBroadcasts(u, u.broadcast);
    SendPacketsEnds(hasher, s, t, u, v);
  }

  lemma SendPacketsEnds(hasher: Hasher, s: State, t: State, u: State, v: State)
    requires Transmits(s, t) && u == t.(targeted := []) && Inv(hasher, v) && Transmits(u, v)
    ensures var w := v.(broadcast := []);
            && Inv(hasher, w) && Extends(s, w) && AllTraced(s, w)
            && w == s.(trace := w.trace, sent := w.sent, broadcast := [], targeted := [])
  {
    var w := v.(broadcast := []);
    assert Extends(t, w) && AllTraced(t, w);
    ExtendsTransitive(s, t, w);
    AllTracedTransitive(s, t, w);
    hide StoresOk, SentOk, TargetedOk, ConnectionsOk, SentPeersOk, HandlePeersOk, SendersOk, Grows;
  }

  // ---- Cleaning up ----

  lemma StoresCleaned(hasher: Hasher, s: State, now: u64, leftover: Leftover)
    requires StoresOk(hasher, s.messages, s.packets, s.store, s.announceAt)
    ensures StoresOk(hasher,
                     map m | m in s.messages && !StoredOld(s, s.messages[m], now, leftover) :: s.messages[m],
                     map h | h in s.packets && !StoredOld(s, s.packets[h], now, leftover) :: s.packets[h],
                     map a | a in s.store && !PacketOld(s.store[a], now) :: s.store[a],
                     s.announceAt)
  {
    hide IdOf, Old;
  }

  lemma ListsCleaned(s: State, now: u64, leftover: Leftover)
    requires SentOk(s.sent, s.connections, s.announceAt)
    requires TargetedOk(s.targeted, s.sent, s.connections, s.announceAt)
    ensures
      var connections := map k | k in s.connections && !ConnectionOld(s.connections[k], now) :: s.connections[k];
      var sent := Filter((e: (Addr, u16)) => !EntryOld(s, e, now, leftover), s.sent);
      var targeted := Filter((e: (Addr, u16)) => !EntryOld(s, e, now, leftover), s.targeted);
      SentOk(sent, connections, s.announceAt) && TargetedOk(targeted, sent, connections, s.announceAt)
  {
    var keep := (e: (Addr, u16)) => !EntryOld(s, e, now, leftover);
    FilterSorted(keep, s.sent);
    FilterSorted(keep, s.targeted);
    hide Sorted, Old;
  }

  lemma QueuesCleaned(s: State, now: u64, leftover: Leftover)
    requires BroadcastOk(s.broadcast, s.store) && SentPeersOk(s.sentPeers, s.store, s.peers)
    ensures
      var store := map a | a in s.store && !PacketOld(s.store[a], now) :: s.store[a];
      && BroadcastOk(Filter((a: Addr) => !StoredOld(s, a, now, leftover), s.broadcast), store)
      && SentPeersOk(Filter((e: (Addr, u64)) => !StoredOld(s, e.0, now, leftover), s.sentPeers), store, s.peers)
  {
    hide Old;
    FilterDistinct((a: Addr) => !StoredOld(s, a, now, leftover), s.broadcast);
  }

  /** Queues and stores are purged by the same conditions, so nothing queued or listed loses what it refers to. */
  lemma CleanupKeeps(hasher: Hasher, s: State, nowUs: u64, leftover: Leftover)
    requires Inv(hasher, s)
    ensures Inv(hasher, Cleanup(s, nowUs, leftover))
  {
    var now := TimeMs(s.offset, nowUs);
    StoresCleaned(hasher, s, now, leftover);
    ListsCleaned(s, now, leftover);
    QueuesCleaned(s, now, leftover);
    hide StoresOk, SentOk, TargetedOk, BroadcastOk, SentPeersOk, Old;
  }
}
