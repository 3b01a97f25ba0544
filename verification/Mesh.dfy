/** Any network of repeaters: how far and how often one packet travels. */
module Mesh {
  import opened Bytes
  import opened Packets
  import opened ProtocolWriter
  import opened ProtocolParser
  import opened RoundTrip
  import opened Relay
  import opened Multimap
  import opened TrackerModel
  import opened Invariants
  import opened Sending
  import opened Runs

  // ---- Packets that relay cleanly ----

  /** The form in which packets come out of the parser. */
  predicate Canonical(p: Packet) {
    && (HasBit(p.flags, HAS_RECIPIENT) || p.recipient == 0)
    && (p.body.Raw? ==> |p.body.payload| <= 65535)
    && (p.body.Text? ==> |p.body.message.id| <= 255)
  }

  /** Neither signed nor compressed, and writable without loss of length. */
  predicate Plain(p: Packet) {
    Writable(p) && Fits(p) && !HasBit(p.flags, IS_COMPRESSED) && !HasBit(p.flags, HAS_SIGNATURE)
  }

  predicate Good(p: Packet) {
    Plain(p) && Canonical(p) && Relayable(p)
  }

  lemma NormalFits(m: Message)
    requires PeerPresent(m) && CountFits(m)
    ensures PeerPresent(Normal(m)) && CountFits(Normal(m)) && |MessageBytes(Normal(m))| <= |MessageBytes(m)|
  {
    if HasBit(m.flags, IS_ENCRYPTED) && m.content != [] {
      DroppedContent(m);
    } else {
      NormalWritesSame(m);
    }
  }

  /** What the next repeater stores for a good packet is good and has the same id. */
  lemma GoodNext(hasher: Hasher, p: Packet)
    requires Good(p)
    ensures Good(NextPacket(p)) && IdOf(hasher, NextPacket(p)) == IdOf(hasher, p)
  {
    if p.body.Text? {
      NormalFits(p.body.message);
      assert Clamp(p.body.message.id, 255) == p.body.message.id;
    } else {
      var s := p.body.payload;
      assert s[..|s|] == s;
      assert WrittenPayload(p) == s;
      assert HashedMeta(NextPacket(p)) == HashedMeta(p);
    }
  }

  lemma ParsedIdLength(payload: seq<byte>)
    requires ParseMessage(payload).Some?
    ensures |ParseMessage(payload).value.id| <= 255
  {
    hide TakeOptional8, TakePeer, TakeMentions;
  }

  /** Whatever the parser hands over is canonical. */
  lemma ParsedCanonical(inflate: Inflater, b: seq<byte>)
    requires var i := ParsePacket(inflate, b); i.Decoded? && !HasBit(i.flags, IS_COMPRESSED) && AsPacket(i).Some?
    ensures var p := AsPacket(ParsePacket(inflate, b)).value; Canonical(p) && Relayable(p)
  {
    hide ParseMessage;
    var i := ParsePacket(inflate, b);
    if i.packetType == TYPE_MESSAGE {
      ParsedIdLength(i.payload);
    }
  }

  /** What arrives when a good packet is sent on. */
  lemma ArrivesNext(inflate: Inflater, p: Packet)
    requires Good(p)
    ensures var i := ParsePacket(inflate, PacketBytes(p));
            i.Decoded? && (AsPacket(i).Some? ==> AsPacket(i) == Some(NextPacket(p)))
  {
    hide PacketBytes, ParsePacket, MessageBytes, ParseMessage;
    if p.ttl != 1 || p.body.Text? {
      StoredByNext(inflate, p, []);
    } else {
      DecodeWritten(inflate, p);
    }
  }

  lemma GoodIsWritable(p: Packet)
    requires Good(p)
    ensures Writable(p)
  {
  }

  /** A packet that may travel on is relayed as the next repeater stores it. */
  lemma RelaysNext(inflate: Inflater, p: Packet)
    requires Good(p) && p.ttl > 1
    ensures Writable(NextPacket(p)) && RelayBytes(inflate, PacketBytes(p)) == Some(PacketBytes(NextPacket(p)))
    ensures var i := ParsePacket(inflate, PacketBytes(p)); i.Decoded? && AsPacket(i) == Some(NextPacket(p))
  {
    hide PacketBytes, ParsePacket, AsPacket, MessageBytes;
    StoredByNext(inflate, p, []);
    assert NextPacket(p).(signature := []) == NextPacket(p);
  }

  lemma NewUnlessKnown(c: Config, s: State, bytes: seq<byte>, p: Packet)
    requires var i := ParsePacket(c.inflate, bytes); i.Decoded? && AsPacket(i) == Some(p)
    ensures NewPacket(c, s, bytes) == if Known(s, IdOf(c.hasher, p)) then None else Some(p)
  {
    hide ParsePacket, AsPacket, IdOf, Known;
  }

  // ---- The network ----

  /** A repeater, with the number of hops each stored packet had behind it when it arrived. */
  datatype Node = Node(state: State, hops: map<Addr, nat>)

  /** A copy on its way to the connection `key` of `node`: put in by a client, or entry `index` of what node `via` sent. */
  datatype Copy =
    | Injected(node: nat, key: u16, bytes: seq<byte>)
    | Relayed(via: nat, index: nat, packet: Packet, node: nat, key: u16, hops: nat)

  /** All copies there ever were, in the order they were made. Each may arrive any number of times, at any time. */
  datatype Net = Net(nodes: seq<Node>, copies: seq<Copy>)

  type Links = u16 -> (nat, u16)

  /** The same firmware on every node; each node has its own id and announced name. */
  datatype Fleet = Fleet(hasher: Hasher, inflate: Inflater, id: nat -> u64, name: nat -> seq<byte>) {
    function ConfigOf(n: nat): Config {
      Config(hasher, inflate, id(n), name(n))
    }
  }

  datatype MeshEvent =
    | Inject(node: nat, key: u16, bytes: seq<byte>)
    | Deliver(copy: nat, at: Addr, nowUs: u64)
    | Local(node: nat, event: Event, links: Links)

  function CopyBytes(copy: Copy): seq<byte>
    requires copy.Relayed? ==> Writable(copy.packet)
  {
    if copy.Injected? then copy.bytes else PacketBytes(copy.packet)
  }

  function CopyHops(copy: Copy): nat {
    if copy.Injected? then 0 else copy.hops
  }

  function HopsAt(node: Node, at: Addr): nat {
    if at in node.hops then node.hops[at] else 0
  }

  /** The copies of what a node has sent from entry `from` on. */
  function CopiesOf(n: nat, node: Node, from: nat, links: Links): (r: seq<Copy>)
    requires from <= |node.state.trace|
    decreases |node.state.trace| - from
    ensures |r| == |node.state.trace| - from
    ensures forall k :: 0 <= k < |r| ==> r[k] == CopyOf(n, node, from + k, links)
  {
    if from == |node.state.trace| then []
    else [CopyOf(n, node, from, links)] + CopiesOf(n, node, from + 1, links)
  }

  function CopyOf(n: nat, node: Node, i: nat, links: Links): Copy
    requires i < |node.state.trace|
  {
    var x := node.state.trace[i];
    var (to, key) := links(x.handle);
    Relayed(n, i, x.content, to, key, HopsAt(node, x.packet) + 1)
  }

  /** A node after receiving a copy; a packet that is new to it has the copy's hops behind it. */
  function Arrive(c: Config, node: Node, key: u16, bytes: seq<byte>, hops: nat, at: Addr, nowUs: u64): Node {
    Node(Receive(c, node.state, key, bytes, at, nowUs),
         if NewPacket(c, node.state, bytes).Some? then node.hops[at := hops] else node.hops)
  }

  /** A node after an event of its own; a packet it originates has no hops behind it. */
  function Act(c: Config, node: Node, e: Event): Node {
    Node(Step(c, node.state, e), if e.Originated? then node.hops[e.at := 0] else node.hops)
  }

  function MeshStep(f: Fleet, net: Net, e: MeshEvent): Net
    requires Enabled(net, e)
  {
    match e
    case Inject(node, key, bytes) => net.(copies := net.copies + [Injected(node, key, bytes)])
    case Deliver(i, at, nowUs) =>
      var copy := net.copies[i];
      var node := Arrive(f.ConfigOf(copy.node), net.nodes[copy.node], copy.key, CopyBytes(copy), CopyHops(copy), at, nowUs);
      net.(nodes := net.nodes[copy.node := node])
    case Local(n, event, links) =>
      var node := Act(f.ConfigOf(n), net.nodes[n], event);
      Net(net.nodes[n := node], net.copies + CopiesOf(n, node, Min(|net.nodes[n].state.trace|, |node.state.trace|), links))
  }

  predicate Enabled(net: Net, e: MeshEvent) {
    match e
    case Inject(node, key, bytes) => true
    case Deliver(i, at, nowUs) =>
      i < |net.copies| && net.copies[i].node < |net.nodes| && (net.copies[i].Relayed? ==> Writable(net.copies[i].packet))
    case Local(n, event, links) => n < |net.nodes|
  }

  // ---- What is followed ----

  /** One packet, by its id, and the time to live it starts out with. */
  datatype Flood = Flood(id: PacketId, ttl: byte)

  predicate Bears(f: Fleet, flood: Flood, p: Packet) {
    IdOf(f.hasher, p) == flood.id
  }

  /** What clients put in: nothing signed or compressed, only what can be written back, and the followed packet only
      with its initial time to live. */
  predicate InjectionOk(f: Fleet, flood: Flood, bytes: seq<byte>) {
    var i := ParsePacket(f.inflate, bytes);
    i.Decoded? && AsPacket(i).Some? ==> Plain(AsPacket(i).value) && (Bears(f, flood, AsPacket(i).value) ==> i.ttl == flood.ttl)
  }

  /** What a node does by itself: it stores packets where there is room and does not clean up; what it originates can be
      relayed; and what it originates or announces is the followed packet only with its initial time to live. */
  predicate ActionOk(f: Fleet, flood: Flood, s: State, e: Event) {
    && Allowed(s, e) && !e.CleaningUp? && !e.Received?
    && (e.Originated? ==> Good(e.packet) && (Bears(f, flood, e.packet) ==> e.packet.ttl == flood.ttl))
    && (e.Sending? && s.targeted != [] && Bears(f, flood, s.announce) ==> flood.ttl == ANNOUNCE_TTL)
  }

  predicate MeshOk(f: Fleet, flood: Flood, net: Net, e: MeshEvent) {
    && Enabled(net, e)
    && match e
       case Inject(node, key, bytes) => InjectionOk(f, flood, bytes)
       case Deliver(i, at, nowUs) =>
         at !in net.nodes[net.copies[i].node].state.store && at != net.nodes[net.copies[i].node].state.announceAt
       case Local(n, event, links) => ActionOk(f, flood, net.nodes[n].state, event)
  }

  // ---- Nodes ----

  /** Stored packets relay cleanly, and the followed one has used up one unit of its time to live for each hop. */
  ghost predicate StoreOk(f: Fleet, flood: Flood, node: Node) {
    forall a :: a in node.state.store ==>
                  && Good(node.state.store[a])
                  && (Bears(f, flood, node.state.store[a]) ==>
                        a in node.hops && node.state.store[a].ttl + node.hops[a] == flood.ttl)
  }

  /** Whatever was sent was allowed to travel, and is still stored or is the node's own announce, which sets out with
      the initial time to live if it is followed. */
  ghost predicate TraceOk(f: Fleet, flood: Flood, s: State) {
    forall i :: 0 <= i < |s.trace| ==> EntryOk(f, flood, s, s.trace[i])
  }

  ghost predicate EntryOk(f: Fleet, flood: Flood, s: State, x: Sent) {
    && Good(x.content) && x.content.ttl > 0
    && if x.packet == s.announceAt then Bears(f, flood, x.content) ==> x.content.ttl == flood.ttl
       else x.packet in s.store && s.store[x.packet] == x.content
  }

  ghost predicate NodeOk(f: Fleet, flood: Flood, node: Node) {
    && Inv(f.hasher, node.state)
    && Extends(Initial(node.state.announceAt), node.state)
    && AnnounceOk(node.state.announce)
    && AnnounceReady(node.state)
    && node.state.announceAt !in node.hops
    && StoreOk(f, flood, node)
    && TraceOk(f, flood, node.state)
  }

  // ---- Copies ----

  ghost predicate CopyOk(f: Fleet, flood: Flood, net: Net, copy: Copy) {
    match copy
    case Injected(_, _, bytes) => InjectionOk(f, flood, bytes)
    case Relayed(via, index, packet, _, _, hops) =>
      && via < |net.nodes| && index < |net.nodes[via].state.trace|
      && net.nodes[via].state.trace[index].content == packet
      && Good(packet)
      && (Bears(f, flood, packet) ==> packet.ttl > 0 && packet.ttl - 1 + hops == flood.ttl)
  }

  ghost predicate NetOk(f: Fleet, flood: Flood, net: Net) {
    && (forall n :: 0 <= n < |net.nodes| ==> NodeOk(f, flood, net.nodes[n]))
    && (forall j :: 0 <= j < |net.copies| ==> CopyOk(f, flood, net, net.copies[j]))
    && (forall i, j :: 0 <= i < j < |net.copies| ==> DifferentSends(net.copies[i], net.copies[j]))
  }

  predicate DifferentSends(x: Copy, y: Copy) {
    x.Relayed? && y.Relayed? ==> x.via != y.via || x.index != y.index
  }

  // ---- Each node keeps its part ----

  /** What a copy delivers, if it is new to the node. */
  lemma DeliveredPacket(f: Fleet, flood: Flood, net: Net, copy: Copy, c: Config, s: State)
    requires CopyOk(f, flood, net, copy) && c.inflate == f.inflate && c.hasher == f.hasher
    requires copy.Relayed? ==> Writable(copy.packet)
    requires NewPacket(c, s, CopyBytes(copy)).Some?
    ensures var p := NewPacket(c, s, CopyBytes(copy)).value;
            Good(p) && (Bears(f, flood, p) ==> p.ttl + CopyHops(copy) == flood.ttl)
  {
    hide Good, IdOf, ParsePacket, AsPacket, PacketBytes, NewPacket, InjectionOk;
    NewPacketIs(c, s, CopyBytes(copy));
    if copy.Relayed? {
      ArrivesNext(f.inflate, copy.packet);
      GoodNext(f.hasher, copy.packet);
    } else {
      InjectedPacket(f, flood, copy.bytes);
    }
  }

  lemma NewPacketIs(c: Config, s: State, bytes: seq<byte>)
    requires NewPacket(c, s, bytes).Some?
    ensures ParsePacket(c.inflate, bytes).Decoded? && AsPacket(ParsePacket(c.inflate, bytes)) == NewPacket(c, s, bytes)
  {
  }

  lemma InjectedPacket(f: Fleet, flood: Flood, bytes: seq<byte>)
    requires InjectionOk(f, flood, bytes)
    requires var i := ParsePacket(f.inflate, bytes); i.Decoded? && AsPacket(i).Some?
    ensures var p := AsPacket(ParsePacket(f.inflate, bytes)).value;
            Good(p) && (Bears(f, flood, p) ==> p.ttl == flood.ttl)
  {
    hide ParsePacket, IdOf, Fits, Writable, Canonical;
    ParsedCanonical(f.inflate, bytes);
  }

  /** Storing keeps what was sent in place. */
  lemma TraceStays(f: Fleet, flood: Flood, s: State, t: State)
    requires TraceOk(f, flood, s) && t.trace == s.trace && t.announceAt == s.announceAt && StoreGrows(s, t)
    ensures TraceOk(f, flood, t)
  {
    hide Good, Bears;
    forall i | 0 <= i < |t.trace| ensures EntryOk(f, flood, t, t.trace[i]) {
      assert EntryOk(f, flood, s, s.trace[i]);
    }
  }

  lemma ExtendsAnnounceAt(s: State, t: State)
    requires Extends(s, t)
    ensures t.announceAt == s.announceAt
  {
  }

  lemma ArriveKeeps(f: Fleet, flood: Flood, c: Config, node: Node, key: u16, bytes: seq<byte>, hops: nat, at: Addr, nowUs: u64)
    requires NodeOk(f, flood, node) && c.hasher == f.hasher && at !in node.state.store && at != node.state.announceAt
    requires NewPacket(c, node.state, bytes).Some? ==>
               var p := NewPacket(c, node.state, bytes).value;
               Good(p) && (Bears(f, flood, p) ==> p.ttl + hops == flood.ttl)
    ensures NodeOk(f, flood, Arrive(c, node, key, bytes, hops, at, nowUs))
    ensures Arrive(c, node, key, bytes, hops, at, nowUs).state.trace == node.state.trace
  {
    var s, t := node.state, Receive(c, node.state, key, bytes, at, nowUs);
    var node' := Arrive(c, node, key, bytes, hops, at, nowUs);
    assert node'.state == t;
    hide Inv, Extends, Good, Bears, Receive, NewPacket, StoreOk, TraceOk, AnnounceOk, AnnounceReady, StoreGrows;
    ReceiveKeeps(c, s, key, bytes, at, nowUs);
    ExtendsAnnounceAt(s, t);
    ExtendsTransitive(Initial(s.announceAt), s, t);
    ReceivedAt(c, s, key, bytes, at, nowUs);
    TraceStays(f, flood, s, t);
    SameAnnounce(s, t);
    StoreWith(f, flood, node, node', at, if NewPacket(c, s, bytes).Some? then NewPacket(c, s, bytes).value else s.announce, hops);
  }

  /** What receiving does to the parts that matter here. */
  lemma ReceivedAt(c: Config, s: State, key: u16, bytes: seq<byte>, at: Addr, nowUs: u64)
    requires Inv(c.hasher, s) && at !in s.store
    ensures var t := Receive(c, s, key, bytes, at, nowUs);
            && t.trace == s.trace && t.announce == s.announce && t.targeted == s.targeted && StoreGrows(s, t)
            && t.store == match NewPacket(c, s, bytes) case None => s.store case Some(p) => s.store[at := p]
  {
    hide Inv, Receive, NewPacket, Taken, Known, IdOf, Emplace, StoreGrows;
    InvHandlePeers(c.hasher, s);
    ReceiveShape(c, s, key, bytes, at, nowUs);
    TakenAt(c, s, key, bytes, at);
    ReceiveStoreGrows(c, s, key, bytes, at, nowUs);
  }

  lemma SameAnnounce(s: State, t: State)
    requires t.announce == s.announce && t.targeted == s.targeted
    ensures AnnounceOk(s.announce) ==> AnnounceOk(t.announce)
    ensures AnnounceReady(s) ==> AnnounceReady(t)
  {
  }

  lemma StoreWith(f: Fleet, flood: Flood, node: Node, node': Node, at: Addr, p: Packet, hops: nat)
    requires StoreOk(f, flood, node) && at !in node.state.store
    requires node'.hops == node.hops || node'.hops == node.hops[at := hops]
    requires || node'.state.store == node.state.store
             || (&& node'.state.store == node.state.store[at := p] && node'.hops == node.hops[at := hops]
                 && Good(p) && (Bears(f, flood, p) ==> p.ttl + hops == flood.ttl))
    ensures StoreOk(f, flood, node')
  {
    hide Good, Bears;
  }

  /** What each entry of a run of transmissions holds: the packet as it is stored, taken from one of the queues. */
  ghost predicate FromQueues(s: State, t: State, broadcast: seq<Addr>) {
    forall i :: |s.trace| <= i < |t.trace| ==>
                  && t.trace[i].content == PacketAt(s, t.trace[i].packet)
                  && (t.trace[i].packet in broadcast || (t.trace[i].packet == s.announceAt && s.targeted != []))
  }

  lemma {:induction false} TargetedFrom(s: State, queue: seq<(Addr, u16)>)
    requires (forall e :: e in queue ==> e.0 == s.announceAt) && (s.targeted == [] ==> queue == [])
    ensures s.trace <= SendTargeted(s, queue).trace && FromQueues(s, SendTargeted(s, queue), [])
    ensures SendTargeted(s, queue).store == s.store && SendTargeted(s, queue).announce == s.announce
    ensures SendTargeted(s, queue).announceAt == s.announceAt
    decreases |queue|
  {
    hide Recorded, Emplace;
    if queue != [] {
      assert queue[0] in queue;
      assert forall e :: e in queue[1..] ==> e in queue;
      if Recorded(s, queue[0].0, queue[0].1) {
        TargetedFrom(s, queue[1..]);
      } else {
        TargetedFrom(Transmit(s, queue[0].0, queue[0].1), queue[1..]);
      }
    }
  }

  lemma {:induction false} BroadcastFrom(s: State, at: Addr, key: nat)
    requires key <= HANDLES
    ensures s.trace <= SendBroadcast(s, at, key).trace && FromQueues(s, SendBroadcast(s, at, key), [at])
    ensures SendBroadcast(s, at, key).store == s.store && SendBroadcast(s, at, key).announce == s.announce
    ensures SendBroadcast(s, at, key).announceAt == s.announceAt && SendBroadcast(s, at, key).targeted == s.targeted
    decreases HANDLES - key
  {
    hide Blocked, Emplace;
    if key < HANDLES {
      if key in s.connections && Available(s.connections[key]) && !Blocked(s, at, key) {
        BroadcastFrom(Transmit(s, at, key), at, key + 1);
      } else {
        BroadcastFrom(s, at, key + 1);
      }
    }
  }

  lemma {:induction false} BroadcastsFrom(s: State, queue: seq<Addr>)
    ensures s.trace <= SendBroadcasts(s, queue).trace && FromQueues(s, SendBroadcasts(s, queue), queue)
    ensures SendBroadcasts(s, queue).store == s.store && SendBroadcasts(s, queue).announce == s.announce
    ensures SendBroadcasts(s, queue).announceAt == s.announceAt
    decreases |queue|
  {
    hide SendBroadcast;
    if queue != [] {
      var t := SendBroadcast(s, queue[0], 0);
      BroadcastFrom(s, queue[0], 0);
      BroadcastsFrom(t, queue[1..]);
      var u := SendBroadcasts(t, queue[1..]);
      assert forall a :: a in queue[1..] ==> a in queue;
      forall i | |s.trace| <= i < |u.trace|
        ensures u.trace[i].content == PacketAt(s, u.trace[i].packet)
        ensures u.trace[i].packet in queue || (u.trace[i].packet == s.announceAt && s.targeted != [])
      {
        if i < |t.trace| {
          assert u.trace[i] == t.trace[i];
        }
      }
    }
  }

  lemma SendFrom(hasher: Hasher, s: State)
    requires Inv(hasher, s)
    ensures s.trace <= SendPackets(s).trace && FromQueues(s, SendPackets(s), s.broadcast)
  {
    var t := SendTargeted(s, s.targeted);
    TargetedFrom(s, s.targeted);
    TargetedDrains(hasher, s);
    var u := DropTargeted(s, t);
    InvWithoutTargeted(hasher, s);
    SendTargetedKeeps(hasher, s, s.targeted);
    BroadcastsFrom(u, u.broadcast);
    var v := SendBroadcasts(u, u.broadcast);
    hide Inv, SendTargeted, SendBroadcasts, DropTargeted, Grows, AllTraced;
    SendPacketsKeeps(hasher, s);
    FromBoth(s, u, v);
  }

  lemma FromBoth(s: State, u: State, v: State)
    requires s.trace <= u.trace <= v.trace && FromQueues(s, u, []) && FromQueues(u, v, s.broadcast)
    requires u.store == s.store && u.announce == s.announce && u.announceAt == s.announceAt && u.targeted == []
    ensures FromQueues(s, v, s.broadcast)
  {
    forall i | |s.trace| <= i < |v.trace|
      ensures v.trace[i].content == PacketAt(s, v.trace[i].packet)
      ensures v.trace[i].packet in s.broadcast || (v.trace[i].packet == s.announceAt && s.targeted != [])
    {
      if i < |u.trace| {
        assert v.trace[i] == u.trace[i];
      }
    }
  }

  lemma SendTraceOk(f: Fleet, flood: Flood, node: Node)
    requires NodeOk(f, flood, node) && ActionOk(f, flood, node.state, Event.Sending)
    ensures TraceOk(f, flood, SendPackets(node.state))
  {
    var s, t := node.state, SendPackets(node.state);
    SendFrom(f.hasher, s);
    SendPacketsKeeps(f.hasher, s);
    assert s.announceAt !in s.store && BroadcastOk(s.broadcast, s.store);
    hide Inv, SendPackets, Good, Bears, Extends, AllTraced, AnnounceOk, EntryOk, StoreOk;
    forall i | 0 <= i < |t.trace| ensures EntryOk(f, flood, t, t.trace[i]) {
      if i < |s.trace| {
        assert t.trace[i] == s.trace[i];
        SameEntry(f, flood, s, t, s.trace[i]);
      } else {
        NewEntry(f, flood, node, t, t.trace[i]);
      }
    }
  }

  lemma SameEntry(f: Fleet, flood: Flood, s: State, t: State, x: Sent)
    requires EntryOk(f, flood, s, x) && t.store == s.store && t.announceAt == s.announceAt
    ensures EntryOk(f, flood, t, x)
  {
    hide Good, Bears;
  }

  /** What is sent now is a queued packet as it is stored, or the announce as it is. */
  lemma NewEntry(f: Fleet, flood: Flood, node: Node, t: State, x: Sent)
    requires StoreOk(f, flood, node) && AnnounceOk(node.state.announce) && AnnounceReady(node.state)
    requires ActionOk(f, flood, node.state, Event.Sending)
    requires BroadcastOk(node.state.broadcast, node.state.store) && node.state.announceAt !in node.state.store
    requires t.store == node.state.store && t.announceAt == node.state.announceAt
    requires x.content == PacketAt(node.state, x.packet)
    requires x.packet in node.state.broadcast || (x.packet == node.state.announceAt && node.state.targeted != [])
    ensures EntryOk(f, flood, t, x)
  {
    AnnounceIsGood(node.state.announce);
    hide Good, Bears, AnnounceOk, Distinct;
  }

  // ---- A node's own announce ----

  predicate AnnounceOk(p: Packet) {
    p.packetType == TYPE_ANNOUNCE && p.body.Raw? && p.flags == 0 && p.recipient == 0 && |p.body.payload| <= 65535
  }

  /** What is targeted is an announce that has been set up. */
  predicate AnnounceReady(s: State) {
    s.targeted != [] ==> s.announce.ttl == ANNOUNCE_TTL
  }

  lemma AnnounceIsGood(p: Packet)
    requires AnnounceOk(p)
    ensures Good(p)
  {
  }

  lemma AnnounceStaysOk(s: State, key: nat, nowUs: u64)
    requires AnnounceOk(s.announce) && key <= HANDLES
    ensures AnnounceOk(AnnounceFrom(s, key, nowUs).announce) && AnnounceFrom(s, key, nowUs).announce.ttl == s.announce.ttl
  {
    AnnounceStamped(s, key, nowUs);
  }

  // ---- Events of a node's own ----

  /** Everything but sending leaves the trace as it is. */
  lemma QuietStep(c: Config, s: State, e: Event)
    requires Inv(c.hasher, s) && Allowed(s, e) && !e.Sending? && !e.Received? && !e.CleaningUp?
    requires AnnounceOk(s.announce) && AnnounceReady(s) && |c.name| <= 65535
    ensures var t := Step(c, s, e);
            && t.trace == s.trace && t.announceAt == s.announceAt && AnnounceOk(t.announce) && AnnounceReady(t)
            && (t.store == s.store || (e.Originated? && t.store == s.store[e.at := e.packet]))
  {
    hide Inv, AnnounceAll, IdOf, Known, Receive, SendPackets, Cleanup, NeedsAnnounce;
    if e.Announcing? {
      AnnouncingOk(c, s, e.nowUs);
      AnnounceAllExact(c, s, e.nowUs);
    }
  }

  lemma AnnouncingOk(c: Config, s: State, nowUs: u64)
    requires AnnounceOk(s.announce) && |c.name| <= 65535
    ensures AnnounceOk(AnnounceAll(c, s, nowUs).announce) && AnnounceAll(c, s, nowUs).announce.ttl == ANNOUNCE_TTL
  {
    var t := SetupAnnounce(c, s);
    assert AnnounceOk(t.announce) && t.announce.ttl == ANNOUNCE_TTL;
    hide AnnounceFrom, AnnounceOk, SetupAnnounce;
    AnnounceStaysOk(t, 0, nowUs);
  }

  lemma QuietKeeps(f: Fleet, flood: Flood, c: Config, node: Node, e: Event)
    requires NodeOk(f, flood, node) && ActionOk(f, flood, node.state, e) && c.hasher == f.hasher && |c.name| <= 65535
    requires !e.Sending?
    ensures NodeOk(f, flood, Act(c, node, e)) && node.state.trace <= Act(c, node, e).state.trace
  {
    var s, t, node' := node.state, Step(c, node.state, e), Act(c, node, e);
    assert node'.state == t;
    hide Inv, Good, Bears, Step, Extends, StoreOk, TraceOk, StoreGrows, AnnounceOk, AnnounceReady, IdOf, Known;
    StepKeeps(c, s, e);
    ExtendsTransitive(Initial(s.announceAt), s, t);
    QuietStep(c, s, e);
    StepStoreGrows(c, s, e);
    TraceStays(f, flood, s, t);
    StoreWith(f, flood, node, node', if e.Originated? then e.at else s.announceAt,
              if e.Originated? then e.packet else s.announce, 0);
  }

  lemma SendKeeps(f: Fleet, flood: Flood, c: Config, node: Node, e: Event)
    requires NodeOk(f, flood, node) && ActionOk(f, flood, node.state, e) && c.hasher == f.hasher && e.Sending?
    ensures NodeOk(f, flood, Act(c, node, e)) && node.state.trace <= Act(c, node, e).state.trace
  {
    var s, t, node' := node.state, SendPackets(node.state), Act(c, node, e);
    SendTraceOk(f, flood, node);
    SendingIs(c, s, e);
    SendPacketsKeeps(c.hasher, s);
    ExtendsPrefix(s, t);
    hide Inv, Good, Bears, Step, SendPackets, Extends, TraceOk, StoreOk, AllTraced;
    ExtendsTransitive(Initial(s.announceAt), s, t);
    SameStoreOk(f, flood, node, node');
  }

  lemma ExtendsPrefix(s: State, t: State)
    requires Extends(s, t)
    ensures s.trace <= t.trace
  {
  }

  lemma SameStoreOk(f: Fleet, flood: Flood, node: Node, node': Node)
    requires StoreOk(f, flood, node) && node'.state.store == node.state.store && node'.hops == node.hops
    ensures StoreOk(f, flood, node')
  {
    hide Good, Bears;
  }

  lemma ActKeeps(f: Fleet, flood: Flood, c: Config, node: Node, e: Event)
    requires NodeOk(f, flood, node) && ActionOk(f, flood, node.state, e) && c.hasher == f.hasher && |c.name| <= 65535
    ensures NodeOk(f, flood, Act(c, node, e)) && node.state.trace <= Act(c, node, e).state.trace
  {
    hide NodeOk, ActionOk, Act;
    if e.Sending? {
      SendKeeps(f, flood, c, node, e);
    } else {
      QuietKeeps(f, flood, c, node, e);
    }
  }

  lemma SendingIs(c: Config, s: State, e: Event)
    requires e.Sending?
    ensures Step(c, s, e) == SendPackets(s)
  {
  }
}
