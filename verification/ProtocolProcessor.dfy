/** Handling a write from another node. */
module ProtocolProcessor {
  import opened Bytes
  import opened Packets
  import opened ProtocolParser
  import opened Clock
  import opened TrackerModel
  import opened BleConnectionTrackers

  method UpdateOrStorePeerName(tracker: BleConnectionTracker, sender: u64, name: seq<byte>, ttl: byte, key: u16)
    modifies tracker
    ensures tracker.S() == NamePeer(old(tracker.S()), sender, name, ttl, key) && tracker.rawPackets == old(tracker.rawPackets)
  {
    tracker.CheckSenderInPeers(sender);
    var peer := tracker.peers[sender].(name := name);
    if ttl >= peer.announceTtl {
      peer := peer.(announceTtl := ttl);
      tracker.handlePeerMap := tracker.handlePeerMap[HandleAt(tracker.S(), key) := sender];
    }
    tracker.peers := tracker.peers[sender := peer];
    assert tracker.peers == NamePeer(old(tracker.S()), sender, name, ttl, key).peers;
  }

  method UpdateOrStorePeerNoisePublicKey(tracker: BleConnectionTracker, sender: u64, key: seq<byte>)
    modifies tracker`peers
    ensures tracker.S() == SetPublicKey(old(tracker.S()), sender, key)
  {
    tracker.CheckSenderInPeers(sender);
    tracker.peers := tracker.peers[sender := tracker.peers[sender].(publicKey := key)];
  }

  method AcceptMessage(tracker: BleConnectionTracker, key: u16, p: Packet, at: Addr)
    requires p.body.Text?
    modifies tracker
    ensures tracker.S() == Accept(tracker.config.hasher, old(tracker.S()), p, at, key, p.sender)
    ensures tracker.rawPackets == old(tracker.rawPackets)
  {
    hide IdOf, Store, EnqueueBroadcastFrom, Known;
    var isNew := tracker.StoreMessageAndReturnIfNew(p, at);
    if isNew {
      tracker.EnqueueBroadcastPacketFrom(at, key, p.sender);
    }
  }

  method AcceptPassAlong(tracker: BleConnectionTracker, key: u16, p: Packet, at: Addr)
    requires p.body.Raw?
    modifies tracker
    ensures tracker.S() == Accept(tracker.config.hasher, old(tracker.S()), p, at, key, p.sender)
    ensures tracker.rawPackets == old(tracker.rawPackets)
  {
    hide IdOf, Store, EnqueueBroadcastFrom, Known;
    var isNew := tracker.StorePacketAndReturnIfNew(p, at);
    if isNew {
      tracker.EnqueueBroadcastPacketFrom(at, key, p.sender);
    }
  }

  method HandleMessage(tracker: BleConnectionTracker, key: u16, i: Incoming, at: Addr, nowUs: u64)
    requires i.Decoded? && i.packetType == TYPE_MESSAGE
    modifies tracker
    ensures tracker.S() == Dispatch(tracker.config.hasher, old(tracker.S()), key, i, at, nowUs)
    ensures tracker.rawPackets == old(tracker.rawPackets)
  {
    hide Accept, ParseMessage, PeerSeen;
    tracker.CheckSenderInPeers(i.sender);
    var message, peer := ProcessMessage(i.payload);
    if peer.Some? {
      tracker.CheckSenderInPeers(peer.value);
    }
    if message.Some? {
      var p := Packet(TYPE_MESSAGE, i.ttl, i.timestamp, i.flags, i.sender, i.recipient, i.signature, Text(message.value));
      assert CheckSender(tracker.S(), i.sender) == tracker.S();
      AcceptMessage(tracker, key, p, at);
    }
  }

  method HandlePassAlong(tracker: BleConnectionTracker, key: u16, i: Incoming, at: Addr, nowUs: u64)
    requires i.Decoded? && PassedAlong(i.packetType)
    modifies tracker
    ensures tracker.S() == Dispatch(tracker.config.hasher, old(tracker.S()), key, i, at, nowUs)
    ensures tracker.rawPackets == old(tracker.rawPackets)
  {
    hide Accept, NamePeer, Learn, CheckSender;
    if i.packetType == TYPE_ANNOUNCE {
      UpdateOrStorePeerName(tracker, i.sender, i.payload, i.ttl, key);
      tracker.PossiblyUpdateTimeOffset(i.timestamp, nowUs);
    }
    assert tracker.S() == Learned(old(tracker.S()), key, i, nowUs);
    if i.ttl < 1 {
      return;
    }
    tracker.CheckSenderInPeers(i.sender);
    AcceptPassAlong(
      tracker, key, Packet(i.packetType, i.ttl, i.timestamp, i.flags, i.sender, i.recipient, i.signature, Raw(i.payload)), at);
  }

  /** The write is decoded and handled by its packet type. A flagged signature must be there. */
  method ProcessWrite(tracker: BleConnectionTracker, key: u16, offset: u16, buffer: seq<byte>, at: Addr, nowUs: u64)
    requires ParsePacket(tracker.config.inflate, From(buffer, offset)) != Undefined
    modifies tracker
    ensures var i := ParsePacket(tracker.config.inflate, From(buffer, offset));
            tracker.S() == if i.Decoded? then Dispatch(tracker.config.hasher, old(tracker.S()), key, i, at, nowUs) else old(tracker.S())
    ensures tracker.rawPackets == old(tracker.rawPackets)
  {
    var i := ReadPacket(tracker.config.inflate, offset, buffer);
    if !i.Decoded? {
      return;
    }
    if i.packetType == TYPE_NOISE_IDENTITY {
      UpdateOrStorePeerNoisePublicKey(tracker, i.sender, i.payload);
    } else if i.packetType == TYPE_MESSAGE {
      HandleMessage(tracker, key, i, at, nowUs);
    } else if PassedAlong(i.packetType) {
      HandlePassAlong(tracker, key, i, at, nowUs);
    }
  }

  /** A write arrives on a connection, at any offset: the connection is looked up, or set up, and the write is handled. */
  method OnWrite(tracker: BleConnectionTracker, key: u16, offset: u16, buffer: seq<byte>, at: Addr, nowUs: u64)
    requires ParsePacket(tracker.config.inflate, From(buffer, offset)) != Undefined
    modifies tracker
    ensures tracker.S() == Receive(tracker.config, old(tracker.S()), key, From(buffer, offset), at, nowUs)
  {
    hide ParsePacket, Dispatch, ConnectionFor, From;
    tracker.ConnectionForConnHandle(key);
    ProcessWrite(tracker, key, offset, buffer, at, nowUs);
  }
}
