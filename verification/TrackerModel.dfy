/** The repeater's state and what each of its operations does to it. */
module TrackerModel {
  import opened Bytes
  import opened Packets
  import opened ProtocolParser
  import opened Relay
  import opened Clock
  import opened Multimap

  /** The address of a stored packet. Multimaps keyed by packets are ordered by it. */
  type Addr = nat

  /** A connection. `handle` is the stored handle, which need not be the key the connection is stored under;
      `valueHandle` is nonzero once the bitchat characteristic is known. */
  datatype Connection = Connection(handle: u16, connected: bool, valueHandle: u16, mtu: u16, lastSeenUs: u64)

  const NEW_CONNECTION: Connection := Connection(0, false, 0, 0, 0)

  datatype Peer = Peer(id: u64, name: seq<byte>, publicKey: seq<byte>, announceTtl: byte)

  /** A packet handed to the radio for a connection: which stored packet, the stored handle, and the packet's value. */
  datatype Sent = Sent(packet: Addr, handle: u16, content: Packet)

  const HANDLES: nat := 0x1_0000
  const BUILD_TIME_MS: nat := 1755685519
  const ANNOUNCE_TTL: byte := 3
  const TEN_MINUTES_MS: nat := 600000

  /** What the surroundings supply: the string hash, the decompressor, this node's id and its announced name. */
  datatype Config = Config(hasher: Hasher, inflate: Inflater, me: u64, name: seq<byte>)

  /** The tracker. `store` holds the stored messages and packets by address, `announce` the node's own announce,
      at address `announceAt`. `sent` and `targeted` are multimaps from packets to connection keys. `trace` lists
      everything sent so far. */
  datatype State = State(
    peers: map<u64, Peer>,
    messages: map<seq<byte>, Addr>,
    packets: map<Hash, Addr>,
    store: map<Addr, Packet>,
    announce: Packet,
    announceAt: Addr,
    connections: map<u16, Connection>,
    neighbours: map<seq<byte>, Connection>,
    offset: u64,
    handlePeers: map<u16, u64>,
    sent: seq<(Addr, u16)>,
    sentPeers: seq<(Addr, u64)>,
    broadcast: seq<Addr>,
    targeted: seq<(Addr, u16)>,
    trace: seq<Sent>)

  const EMPTY_ANNOUNCE: Packet := Packet(TYPE_ANNOUNCE, 0, 0, 0, 0, 0, [], Raw([]))

  function Initial(announceAt: Addr): State {
    State(map[], map[], map[], map[], EMPTY_ANNOUNCE, announceAt, map[], map[], 0, map[], [], [], [], [], [])
  }

  // ---- Connections ----

  function Lookup(connections: map<u16, Connection>, key: u16): Connection {
    if key in connections then connections[key] else NEW_CONNECTION
  }

  /** The handle stored in the connection under `key`. */
  function HandleAt(s: State, key: u16): u16 {
    Lookup(s.connections, key).handle
  }

  function ConnectionFor(s: State, key: u16): State {
    if key in s.connections then s
    else s.(connections := s.connections[key := NEW_CONNECTION.(handle := key)])
  }

  function SetLink(s: State, key: u16, mtu: u16, valueHandle: u16): State {
    var t := ConnectionFor(s, key);
    t.(connections := t.connections[key := t.connections[key].(mtu := mtu, valueHandle := valueHandle)])
  }

  function AddNeighbour(s: State, address: seq<byte>, nowUs: u64): State {
    var c := if address in s.neighbours then s.neighbours[address] else NEW_CONNECTION;
    s.(neighbours := s.neighbours[address := c.(lastSeenUs := nowUs)])
  }

  function ConnectionStarted(s: State, address: seq<byte>): State {
    s.(neighbours := s.neighbours - {address})
  }

  function Connect(s: State, key: u16, address: seq<byte>, nowUs: u64): State {
    var c := if address in s.neighbours then s.neighbours[address] else Lookup(s.connections, key);
    s.(connections := s.connections[key := c.(handle := key, connected := true, lastSeenUs := nowUs)],
       neighbours := s.neighbours - {address})
  }

  /** The purge of announce records compares with the address of a copy, so it removes nothing. */
  function Disconnect(s: State, key: u16): State {
    s.(connections := s.connections[key := Lookup(s.connections, key).(connected := false)],
       handlePeers := s.handlePeers - {key})
  }

  // ---- Peers ----

  /** The peer with this id, a new one if there is none. */
  function PeerAt(peers: map<u64, Peer>, id: u64): Peer {
    if id in peers then peers[id] else Peer(id, [], [], 0)
  }

  function CheckSender(s: State, id: u64): State {
    if id in s.peers then s else s.(peers := s.peers[id := PeerAt(s.peers, id)])
  }

  function SetPublicKey(s: State, id: u64, key: seq<byte>): State {
    s.(peers := s.peers[id := PeerAt(s.peers, id).(publicKey := key)])
  }

  /** An announce updates the peer's name and, unless it has travelled further than an earlier one, its
      time to live and the connection the peer is reached by. */
  function NamePeer(s: State, id: u64, name: seq<byte>, ttl: byte, key: u16): State {
    var best := ttl >= PeerAt(s.peers, id).announceTtl;
    s.(peers := s.peers[id := PeerAt(s.peers, id).(name := name, announceTtl := if best then ttl else PeerAt(s.peers, id).announceTtl)],
       handlePeers := if best then s.handlePeers[HandleAt(s, key) := id] else s.handlePeers)
  }

  // ---- Stores and queues ----

  function Known(s: State, id: PacketId): bool {
    match id
    case MessageId(m) => m in s.messages
    case HashId(h) => h in s.packets
  }

  function Store(hasher: Hasher, s: State, p: Packet, at: Addr): State {
    s.(messages := MessagesWith(s.messages, IdOf(hasher, p), at),
       packets := PacketsWith(s.packets, IdOf(hasher, p), at),
       store := s.store[at := p])
  }

  function MessagesWith(messages: map<seq<byte>, Addr>, id: PacketId, at: Addr): map<seq<byte>, Addr> {
    if id.MessageId? then messages[id.id := at] else messages
  }

  function PacketsWith(packets: map<Hash, Addr>, id: PacketId, at: Addr): map<Hash, Addr> {
    if id.HashId? then packets[id.hash := at] else packets
  }

  /** The packet at an address; the announce stands in for an address that holds none. */
  function PacketAt(s: State, at: Addr): Packet {
    if at in s.store then s.store[at] else s.announce
  }

  /** A packet that may not travel any further is not queued. */
  function Queued(broadcast: seq<Addr>, at: Addr, ttl: byte): seq<Addr> {
    if ttl > 0 then broadcast + [at] else broadcast
  }

  function EnqueueBroadcast(s: State, at: Addr): State {
    s.(broadcast := Queued(s.broadcast, at, PacketAt(s, at).ttl))
  }

  function EnqueueBroadcastFrom(s: State, at: Addr, key: u16, peer: u64): State {
    s.(sent := Emplace(s.sent, at, key), sentPeers := Emplace(s.sentPeers, at, peer),
       broadcast := Queued(s.broadcast, at, PacketAt(s, at).ttl))
  }

  function EnqueueTargeted(s: State, at: Addr, key: u16): State {
    if PacketAt(s, at).ttl > 0 then
      var t := ConnectionFor(s, key);
      t.(targeted := Emplace(t.targeted, at, key))
    else s
  }

  /** A packet that was not known before is stored, its source recorded as already sent to, and queued. */
  function Accept(hasher: Hasher, s: State, p: Packet, at: Addr, key: u16, peer: u64): State {
    if Known(s, IdOf(hasher, p)) then s else EnqueueBroadcastFrom(Store(hasher, s, p, at), at, key, peer)
  }

  // ---- Receiving ----

  /** What a decoded packet does besides being relayed. */
  function Learned(s: State, key: u16, i: Incoming, nowUs: u64): State
    requires i.Decoded?
  {
    if i.packetType == TYPE_NOISE_IDENTITY then SetPublicKey(s, i.sender, i.payload)
    else if i.packetType == TYPE_MESSAGE then
      var t := CheckSender(s, i.sender);
      (match PeerSeen(i.payload) case None => t case Some(id) => CheckSender(t, id))
    else if i.packetType == TYPE_ANNOUNCE then
      var t := NamePeer(s, i.sender, i.payload, i.ttl, key);
      t.(offset := Learn(t.offset, nowUs, i.timestamp))
    else s
  }

  /** Handling a decoded packet that came in on the connection under `key`; `at` is where it goes if it is stored. */
  function Dispatch(hasher: Hasher, s: State, key: u16, i: Incoming, at: Addr, nowUs: u64): State
    requires i.Decoded?
  {
    var t := Learned(s, key, i, nowUs);
    match AsPacket(i)
    case None => t
    case Some(p) => Accept(hasher, CheckSender(t, i.sender), p, at, key, i.sender)
  }

  function Receive(c: Config, s: State, key: u16, bytes: seq<byte>, at: Addr, nowUs: u64): State {
    var t := ConnectionFor(s, key);
    var i := ParsePacket(c.inflate, bytes);
    if i.Decoded? then Dispatch(c.hasher, t, key, i, at, nowUs) else t
  }

  /** A message of this node's own. */
  function Originate(hasher: Hasher, s: State, p: Packet, at: Addr): State {
    if Known(s, IdOf(hasher, p)) then s else EnqueueBroadcast(Store(hasher, s, p, at), at)
  }

  // ---- Announcing ----

  predicate Available(c: Connection) {
    c.connected && c.valueHandle > 0
  }

  predicate ClockSet(s: State) {
    s.offset >= BUILD_TIME_MS
  }

  /** Some record says that the packet went to the handle of the connection under `key`. */
  predicate Recorded(s: State, at: Addr, key: u16) {
    exists r :: r in s.sent && r.0 == at && HandleAt(s, r.1) == HandleAt(s, key)
  }

  function SetupAnnounce(c: Config, s: State): State {
    if s.announce.ttl == ANNOUNCE_TTL then s
    else s.(announce := s.announce.(ttl := ANNOUNCE_TTL, flags := 0, sender := c.me, body := Raw(c.name)))
  }

  predicate NeedsAnnounce(s: State, key: u16) {
    key in s.connections && Available(s.connections[key]) && ClockSet(s) && !Recorded(s, s.announceAt, key)
  }

  /** The loop over the connection table in key order, from `key` on. */
  function AnnounceFrom(s: State, key: nat, nowUs: u64): State
    requires key <= HANDLES
    decreases HANDLES - key, nowUs
  {
    if key == HANDLES then s
    else if NeedsAnnounce(s, key) then
      var t := s.(announce := s.announce.(timestamp := TimeMs(s.offset, nowUs)));
      AnnounceFrom(EnqueueTargeted(t, t.announceAt, HandleAt(t, key)), key + 1, nowUs)
    else AnnounceFrom(s, key + 1, nowUs)
  }

  function AnnounceAll(c: Config, s: State, nowUs: u64): State {
    AnnounceFrom(SetupAnnounce(c, s), 0, nowUs)
  }

  // ---- Sending ----

  function Transmit(s: State, at: Addr, key: u16): State {
    s.(trace := s.trace + [Sent(at, HandleAt(s, key), PacketAt(s, at))], sent := Emplace(s.sent, at, key))
  }

  /** The targeted queue, entry by entry; records made on the way count. */
  function SendTargeted(s: State, queue: seq<(Addr, u16)>): State
    decreases |queue|
  {
    if queue == [] then s
    else if Recorded(s, queue[0].0, queue[0].1) then SendTargeted(s, queue[1..])
    else SendTargeted(Transmit(s, queue[0].0, queue[0].1), queue[1..])
  }

  /** The targeted entries of every packet that was sent to somebody leave the queue. */
  function DropTargeted(before: State, after: State): State {
    after.(targeted := Filter((e: (Addr, u16)) => !SentSince(before, after, e.0), after.targeted))
  }

  predicate SentSince(before: State, after: State, at: Addr) {
    exists i :: |before.trace| <= i < |after.trace| && after.trace[i].packet == at
  }

  /** The search for a record runs from the packet's first record to the end of the multimap, so records of
      packets at higher addresses count as well. */
  predicate Blocked(s: State, at: Addr, key: u16) {
    HasKey(s.sent, at) && Covered(s, at, key)
  }

  /** A record of this packet, or of one at a higher address, names the handle. */
  predicate Covered(s: State, at: Addr, key: u16) {
    exists r :: r in s.sent && r.0 >= at && HandleAt(s, r.1) == HandleAt(s, key)
  }

  /** One broadcast packet to the available connections in key order, from `key` on. */
  function SendBroadcast(s: State, at: Addr, key: nat): State
    requires key <= HANDLES
    decreases HANDLES - key, at
  {
    if key == HANDLES then s
    else if key in s.connections && Available(s.connections[key]) && !Blocked(s, at, key) then
      SendBroadcast(Transmit(s, at, key), at, key + 1)
    else SendBroadcast(s, at, key + 1)
  }

  function SendBroadcasts(s: State, queue: seq<Addr>): State
    decreases |queue|
  {
    if queue == [] then s else SendBroadcasts(SendBroadcast(s, queue[0], 0), queue[1..])
  }

  function SendPackets(s: State): State {
    var t := DropTargeted(s, SendTargeted(s, s.targeted));
    SendBroadcasts(t, t.broadcast).(broadcast := [])
  }

  /** Everything that is queued can be written. */
  ghost predicate QueuesWritable(s: State) {
    && (forall a :: a in s.broadcast ==> Writable(PacketAt(s, a)))
    && (forall e :: e in s.targeted ==> Writable(PacketAt(s, e.0)))
  }

  // ---- Cleaning up ----

  /** Ten minutes have passed since the given time. */
  predicate Old(timeMs: u64, now: u64) {
    Add64(timeMs, TEN_MINUTES_MS) < now
  }

  /** The stores divide the packet's timestamp by a thousand first. */
  predicate PacketOld(p: Packet, now: u64) {
    Old(p.timestamp / 1000, now)
  }

  predicate ConnectionOld(c: Connection, now: u64) {
    !c.connected && Old(c.lastSeenUs / 1000, now)
  }

  /** What the memory of a packet that is no longer stored happens to hold as its timestamp. */
  type Leftover = Addr -> u64

  function TimestampAt(s: State, at: Addr, leftover: Leftover): u64 {
    if at in s.store then s.store[at].timestamp else if at == s.announceAt then s.announce.timestamp else leftover(at)
  }

  predicate EntryOld(s: State, e: (Addr, u16), now: u64, leftover: Leftover) {
    Old(TimestampAt(s, e.0, leftover), now) || ConnectionOld(Lookup(s.connections, e.1), now)
  }

  predicate StoredOld(s: State, at: Addr, now: u64, leftover: Leftover) {
    Old(TimestampAt(s, at, leftover) / 1000, now)
  }

  function Cleanup(s: State, nowUs: u64, leftover: Leftover): State {
    var now := TimeMs(s.offset, nowUs);
    s.(sent := Filter((e: (Addr, u16)) => !EntryOld(s, e, now, leftover), s.sent),
       sentPeers := Filter((e: (Addr, u64)) => !StoredOld(s, e.0, now, leftover), s.sentPeers),
       broadcast := Filter((a: Addr) => !StoredOld(s, a, now, leftover), s.broadcast),
       targeted := Filter((e: (Addr, u16)) => !EntryOld(s, e, now, leftover), s.targeted),
       connections := map k | k in s.connections && !ConnectionOld(s.connections[k], now) :: s.connections[k],
       neighbours := map a | a in s.neighbours && !ConnectionOld(s.neighbours[a], now) :: s.neighbours[a],
       messages := map m | m in s.messages && !StoredOld(s, s.messages[m], now, leftover) :: s.messages[m],
       packets := map h | h in s.packets && !StoredOld(s, s.packets[h], now, leftover) :: s.packets[h],
       store := map a | a in s.store && !PacketOld(s.store[a], now) :: s.store[a])
  }
}
