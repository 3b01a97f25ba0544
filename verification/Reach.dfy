/** How far a flood gets when nothing is lost. */
module Reach {
  import opened Bytes
  import opened Packets
  import opened ProtocolWriter
  import opened ProtocolParser
  import opened Relay
  import opened Multimap
  import opened TrackerModel
  import opened Invariants
  import opened Sending
  import opened Runs
  import opened Mesh
  import opened FloodBounds

  // ---- The links ----

  /** Where each handle of each node leads: to a node and the handle it has for the connection; or, with a number that is
      no node's, out of the network. */
  type Topology = (nat, u16) -> (nat, u16)

  /** Every link between two of the nodes works both ways. */
  ghost predicate TwoWay(topo: Topology, nodes: nat) {
    forall n: nat, k: u16 :: n < nodes && topo(n, k).0 < nodes ==> topo(topo(n, k).0, topo(n, k).1) == (n, k)
  }

  /** What nodes send follows the links, and clients come in from outside. */
  ghost predicate Follows(topo: Topology, nodes: nat, e: MeshEvent) {
    match e
    case Inject(node, key, _) => topo(node, key).0 >= nodes
    case Deliver(_, _, _) => true
    case Local(n, _, links) => forall k :: links(k) == topo(n, k)
  }

  // ---- Having the packet ----

  ghost predicate SentOwn(f: Fleet, flood: Flood, s: State) {
    exists i :: 0 <= i < |s.trace| && s.trace[i].packet == s.announceAt && Bears(f, flood, s.trace[i].content)
  }

  /** The node has the followed packet: it is known to it, or it is an announce of its own. */
  ghost predicate Has(f: Fleet, flood: Flood, net: Net, n: nat)
    requires n < |net.nodes|
  {
    Known(net.nodes[n].state, flood.id) || SentOwn(f, flood, net.nodes[n].state)
  }

  ghost predicate Stores(f: Fleet, flood: Flood, s: State, a: Addr) {
    a in s.store && Bears(f, flood, s.store[a])
  }

  lemma StoredIsKnown(f: Fleet, flood: Flood, s: State, a: Addr)
    requires Inv(f.hasher, s) && Stores(f, flood, s, a)
    ensures Known(s, flood.id)
  {
    assert Located(s.messages, s.packets, IdOf(f.hasher, s.store[a]), a);
    hide IdOf;
  }

  lemma KnownIsStored(f: Fleet, flood: Flood, s: State) returns (a: Addr)
    requires Inv(f.hasher, s) && Known(s, flood.id)
    ensures Stores(f, flood, s, a)
  {
    hide IdOf;
    match flood.id {
      case MessageId(m) => a := s.messages[m];
      case HashId(h) => a := s.packets[h];
    }
  }

  // ---- What a network keeps ----

  /** A copy goes where the links lead. */
  ghost predicate Wired(topo: Topology, net: Net, copy: Copy) {
    match copy
    case Injected(node, key, _) => topo(node, key).0 >= |net.nodes|
    case Relayed(via, index, _, node, key, _) =>
      && via < |net.nodes| && index < |net.nodes[via].state.trace|
      && (node, key) == topo(via, net.nodes[via].state.trace[index].handle)
  }

  /** There is a copy of everything a node has sent. */
  ghost predicate Copied(net: Net, n: nat, i: nat) {
    exists j :: 0 <= j < |net.copies| && net.copies[j].Relayed? && net.copies[j].via == n && net.copies[j].index == i
  }

  /** A record of the followed packet: it was sent there, or came from outside the network, or the node it leads to has it. */
  ghost predicate Accounted(f: Fleet, flood: Flood, topo: Topology, net: Net, n: nat, r: (Addr, u16))
    requires n < |net.nodes|
  {
    var s := net.nodes[n].state;
    Stores(f, flood, s, r.0) ==>
      || Traced(s.trace, 0, r)
      || topo(n, r.1).0 >= |net.nodes|
      || Has(f, flood, net, topo(n, r.1).0)
  }

  ghost predicate RecordsOk(f: Fleet, flood: Flood, topo: Topology, net: Net, n: nat)
    requires n < |net.nodes|
  {
    var s := net.nodes[n].state;
    forall r :: r in s.sent ==> (r.0 in s.store || r.0 == s.announceAt) && Accounted(f, flood, topo, net, n, r)
  }

  /** The node has the packet with this time to live: stored, or as its own announce. */
  ghost predicate HoldsAt(f: Fleet, flood: Flood, s: State, ttl: nat) {
    || (exists a :: Stores(f, flood, s, a) && s.store[a].ttl == ttl)
    || (ttl == flood.ttl && SentOwn(f, flood, s))
  }

  ghost predicate AtLevel(f: Fleet, flood: Flood, net: Net, ttl: nat) {
    exists n :: 0 <= n < |net.nodes| && HoldsAt(f, flood, net.nodes[n].state, ttl)
  }

  /** Whoever stores the packet with less than the initial time to live has it from a node with one unit more. */
  ghost predicate LevelsOk(f: Fleet, flood: Flood, net: Net, n: nat)
    requires n < |net.nodes|
  {
    forall a :: Stores(f, flood, net.nodes[n].state, a) ==> LevelOk(f, flood, net, net.nodes[n].state.store[a].ttl)
  }

  ghost predicate LevelOk(f: Fleet, flood: Flood, net: Net, ttl: nat) {
    ttl <= flood.ttl && (ttl < flood.ttl ==> AtLevel(f, flood, net, ttl + 1))
  }

  ghost predicate Spread(f: Fleet, flood: Flood, topo: Topology, net: Net) {
    && NetOk(f, flood, net)
    && (forall j :: 0 <= j < |net.copies| ==> Wired(topo, net, net.copies[j]))
    && (forall n, i :: 0 <= n < |net.nodes| && 0 <= i < |net.nodes[n].state.trace| ==> Copied(net, n, i))
    && (forall n :: 0 <= n < |net.nodes| ==> RecordsOk(f, flood, topo, net, n))
    && (forall n :: 0 <= n < |net.nodes| ==> LevelsOk(f, flood, net, n))
  }

  // ---- Nothing is forgotten ----

  /** A node only gains packets, and what it has sent stays sent. */
  ghost predicate NodeGrows(s: State, t: State) {
    StoreGrows(s, t) && s.trace <= t.trace && t.announceAt == s.announceAt
  }

  ghost predicate NetGrows(net: Net, net': Net) {
    |net'.nodes| == |net.nodes| && net.copies <= net'.copies
    && forall n :: 0 <= n < |net.nodes| ==> NodeGrows(net.nodes[n].state, net'.nodes[n].state)
  }

  lemma StillSentOwn(f: Fleet, flood: Flood, s: State, t: State)
    requires NodeGrows(s, t) && SentOwn(f, flood, s)
    ensures SentOwn(f, flood, t)
  {
    hide Bears;
    var i :| 0 <= i < |s.trace| && s.trace[i].packet == s.announceAt && Bears(f, flood, s.trace[i].content);
    assert t.trace[i] == s.trace[i];
  }

  lemma StillHas(f: Fleet, flood: Flood, net: Net, net': Net, n: nat)
    requires NetGrows(net, net') && n < |net.nodes| && Has(f, flood, net, n)
    ensures Has(f, flood, net', n)
  {
    hide SentOwn;
    var s, t := net.nodes[n].state, net'.nodes[n].state;
    assert NodeGrows(s, t);
    if SentOwn(f, flood, s) {
      StillSentOwn(f, flood, s, t);
    }
  }

  lemma StillAtLevel(f: Fleet, flood: Flood, net: Net, net': Net, ttl: nat)
    requires NetGrows(net, net') && AtLevel(f, flood, net, ttl)
    ensures AtLevel(f, flood, net', ttl)
  {
    hide Bears, SentOwn;
    var n :| 0 <= n < |net.nodes| && HoldsAt(f, flood, net.nodes[n].state, ttl);
    var s, t := net.nodes[n].state, net'.nodes[n].state;
    assert NodeGrows(s, t);
    if a :| Stores(f, flood, s, a) && s.store[a].ttl == ttl {
      assert Stores(f, flood, t, a) && t.store[a].ttl == ttl;
    } else {
      StillSentOwn(f, flood, s, t);
    }
    assert HoldsAt(f, flood, t, ttl);
  }

  lemma StillTraced(trace: seq<Sent>, trace': seq<Sent>, r: (Addr, u16))
    requires Traced(trace, 0, r) && trace <= trace'
    ensures Traced(trace', 0, r)
  {
    var i :| 0 <= i < |trace| && Pair(trace[i]) == r;
    assert trace'[i] == trace[i];
  }

  // ---- One step ----

  lemma OldRecord(f: Fleet, flood: Flood, topo: Topology, net: Net, net': Net, n: nat, r: (Addr, u16))
    requires NetGrows(net, net') && n < |net.nodes| && RecordsOk(f, flood, topo, net, n) && r in net.nodes[n].state.sent
    requires Inv(f.hasher, net'.nodes[n].state)
    ensures var t := net'.nodes[n].state;
            (r.0 in t.store || r.0 == t.announceAt) && Accounted(f, flood, topo, net', n, r)
  {
    hide Bears, Has, Traced;
    var s, t := net.nodes[n].state, net'.nodes[n].state;
    assert NodeGrows(s, t);
    NotAnnounce(f.hasher, t);
    hide Inv;
    assert Accounted(f, flood, topo, net, n, r);
    if Stores(f, flood, t, r.0) {
      assert r.0 in s.store && Stores(f, flood, s, r.0);
      if Traced(s.trace, 0, r) {
        StillTraced(s.trace, t.trace, r);
      } else if topo(n, r.1).0 < |net.nodes| {
        StillHas(f, flood, net, net', topo(n, r.1).0);
      }
    }
  }

  lemma OldLevel(f: Fleet, flood: Flood, net: Net, net': Net, ttl: nat)
    requires NetGrows(net, net') && LevelOk(f, flood, net, ttl)
    ensures LevelOk(f, flood, net', ttl)
  {
    hide AtLevel;
    if ttl < flood.ttl {
      StillAtLevel(f, flood, net, net', ttl + 1);
    }
  }

  /** What is new at the one node that a step changes. */
  ghost predicate NewsOk(f: Fleet, flood: Flood, topo: Topology, net: Net, net': Net, m: nat)
    requires m < |net.nodes| == |net'.nodes|
  {
    var s, t := net.nodes[m].state, net'.nodes[m].state;
    && (forall r :: r in t.sent && r !in s.sent ==>
                      (r.0 in t.store || r.0 == t.announceAt) && Accounted(f, flood, topo, net', m, r))
    && (forall a :: Stores(f, flood, t, a) && a !in s.store ==> LevelOk(f, flood, net', t.store[a].ttl))
    && (forall i :: |s.trace| <= i < |t.trace| ==> Copied(net', m, i))
    && (forall j :: |net.copies| <= j < |net'.copies| ==> Wired(topo, net', net'.copies[j]))
  }

  ghost predicate OnlyNode(net: Net, net': Net, m: nat) {
    NetGrows(net, net') && m < |net.nodes| && forall n :: 0 <= n < |net.nodes| && n != m ==> net'.nodes[n] == net.nodes[n]
  }

  lemma StillCopied(net: Net, net': Net, n: nat, i: nat)
    requires net.copies <= net'.copies && Copied(net, n, i)
    ensures Copied(net', n, i)
  {
    var j :| 0 <= j < |net.copies| && net.copies[j].Relayed? && net.copies[j].via == n && net.copies[j].index == i;
    assert net'.copies[j] == net.copies[j];
  }

  lemma StillWired(topo: Topology, net: Net, net': Net, copy: Copy)
    requires NetGrows(net, net') && Wired(topo, net, copy)
    ensures Wired(topo, net', copy)
  {
    if copy.Relayed? {
      assert NodeGrows(net.nodes[copy.via].state, net'.nodes[copy.via].state);
    }
  }

  lemma RecordsKept(f: Fleet, flood: Flood, topo: Topology, net: Net, net': Net, m: nat, n: nat)
    requires OnlyNode(net, net', m) && NewsOk(f, flood, topo, net, net', m) && n < |net.nodes|
    requires RecordsOk(f, flood, topo, net, n) && Inv(f.hasher, net'.nodes[n].state)
    ensures RecordsOk(f, flood, topo, net', n)
  {
    hide Accounted, Inv, LevelOk, Copied, Wired, Stores;
    forall r | r in net'.nodes[n].state.sent
      ensures var t := net'.nodes[n].state;
              (r.0 in t.store || r.0 == t.announceAt) && Accounted(f, flood, topo, net', n, r)
    {
      if r in net.nodes[n].state.sent {
        OldRecord(f, flood, topo, net, net', n, r);
      }
    }
  }

  lemma LevelsKept(f: Fleet, flood: Flood, topo: Topology, net: Net, net': Net, m: nat, n: nat)
    requires OnlyNode(net, net', m) && NewsOk(f, flood, topo, net, net', m) && n < |net.nodes|
    requires LevelsOk(f, flood, net, n)
    ensures LevelsOk(f, flood, net', n)
  {
    hide Accounted, LevelOk, Copied, Wired, Bears;
    var s, t := net.nodes[n].state, net'.nodes[n].state;
    assert NodeGrows(s, t);
    forall a | Stores(f, flood, t, a) ensures LevelOk(f, flood, net', t.store[a].ttl) {
      if a in s.store {
        assert Stores(f, flood, s, a);
        OldLevel(f, flood, net, net', s.store[a].ttl);
      }
    }
  }

  lemma SpreadKept(f: Fleet, flood: Flood, topo: Topology, net: Net, net': Net, m: nat)
    requires Spread(f, flood, topo, net) && NetOk(f, flood, net') && OnlyNode(net, net', m)
    requires NewsOk(f, flood, topo, net, net', m)
    ensures Spread(f, flood, topo, net')
  {
    hide NodeOk, CopyOk, RecordsOk, LevelsOk, Wired, Copied, Accounted, LevelOk, Stores, DifferentSends, NodeGrows;
    forall n | 0 <= n < |net'.nodes| ensures RecordsOk(f, flood, topo, net', n) && LevelsOk(f, flood, net', n) {
      assert Inv(f.hasher, net'.nodes[n].state) by { NodeInv(f, flood, net'.nodes[n]); }
      RecordsKept(f, flood, topo, net, net', m, n);
      LevelsKept(f, flood, topo, net, net', m, n);
    }
    forall j | 0 <= j < |net'.copies| ensures Wired(topo, net', net'.copies[j]) {
      if j < |net.copies| {
        StillWired(topo, net, net', net.copies[j]);
      }
    }
    forall n, i | 0 <= n < |net'.nodes| && 0 <= i < |net'.nodes[n].state.trace| ensures Copied(net', n, i) {
      if i < |net.nodes[n].state.trace| {
        StillCopied(net, net', n, i);
      }
    }
  }

  lemma NodeInv(f: Fleet, flood: Flood, node: Node)
    requires NodeOk(f, flood, node)
    ensures Inv(f.hasher, node.state)
  {
  }

  // ---- Every event ----

  lemma SameGrowing(s: State)
    ensures NodeGrows(s, s)
  {
  }

  lemma InjectSpreads(f: Fleet, flood: Flood, topo: Topology, net: Net, e: MeshEvent)
    requires Spread(f, flood, topo, net) && MeshOk(f, flood, net, e) && Follows(topo, |net.nodes|, e) && e.Inject?
    ensures Spread(f, flood, topo, MeshStep(f, net, e))
  {
    var net' := MeshStep(f, net, e);
    InjectKeeps(f, flood, net, e);
    hide NodeOk, CopyOk, RecordsOk, LevelsOk, Copied, Accounted, LevelOk, Stores, DifferentSends, NodeGrows, InjectionOk;
    forall n | 0 <= n < |net.nodes| ensures NodeGrows(net.nodes[n].state, net'.nodes[n].state) {
      SameGrowing(net.nodes[n].state);
    }
    if |net.nodes| > 0 {
      SpreadKept(f, flood, topo, net, net', 0);
    }
  }

  /** A copy of the followed packet comes from a node that has it, with one unit of time to live more than arrives. */
  lemma ViaHas(f: Fleet, flood: Flood, net: Net, copy: Copy)
    requires NetOk(f, flood, net) && CopyOk(f, flood, net, copy) && copy.Relayed? && Bears(f, flood, copy.packet)
    ensures Has(f, flood, net, copy.via) && AtLevel(f, flood, net, copy.packet.ttl)
  {
    hide Good, Inv, IdOf, AnnounceOk, StoreOk, DifferentSends;
    var s, i := net.nodes[copy.via].state, copy.index;
    assert NodeOk(f, flood, net.nodes[copy.via]);
    assert EntryOk(f, flood, s, s.trace[i]);
    if s.trace[i].packet == s.announceAt {
      assert SentOwn(f, flood, s);
    } else {
      assert Stores(f, flood, s, s.trace[i].packet);
      StoredIsKnown(f, flood, s, s.trace[i].packet);
    }
    assert HoldsAt(f, flood, s, copy.packet.ttl);
  }

  /** What a relayed copy delivers is the packet with one unit less. */
  lemma DeliversNext(f: Fleet, flood: Flood, net: Net, copy: Copy, c: Config, s: State)
    requires CopyOk(f, flood, net, copy) && copy.Relayed? && c.inflate == f.inflate && c.hasher == f.hasher
    requires Writable(copy.packet) && NewPacket(c, s, CopyBytes(copy)).Some?
    ensures NewPacket(c, s, CopyBytes(copy)) == Some(NextPacket(copy.packet))
    ensures Bears(f, flood, NextPacket(copy.packet)) <==> Bears(f, flood, copy.packet)
  {
    hide Good, IdOf, ParsePacket, AsPacket, PacketBytes, NewPacket;
    NewPacketIs(c, s, CopyBytes(copy));
    ArrivesNext(f.inflate, copy.packet);
    GoodNext(f.hasher, copy.packet);
  }

  /** The new packet's level, and where its source record leads. */
  lemma DeliveredNews(f: Fleet, flood: Flood, topo: Topology, net: Net, copy: Copy, p: Packet)
    requires NetOk(f, flood, net) && CopyOk(f, flood, net, copy) && Wired(topo, net, copy)
    requires TwoWay(topo, |net.nodes|) && copy.node < |net.nodes| && (copy.Relayed? ==> Writable(copy.packet))
    requires NewPacket(f.ConfigOf(copy.node), net.nodes[copy.node].state, CopyBytes(copy)) == Some(p) && Bears(f, flood, p)
    ensures LevelOk(f, flood, net, p.ttl)
    ensures topo(copy.node, copy.key).0 >= |net.nodes| || Has(f, flood, net, topo(copy.node, copy.key).0)
  {
    hide NetOk, Good, Bears, NewPacket, Has, AtLevel, CopyBytes;
    var c, s := f.ConfigOf(copy.node), net.nodes[copy.node].state;
    DeliveredPacket(f, flood, net, copy, c, s);
    if copy.Relayed? {
      DeliversNext(f, flood, net, copy, c, s);
      ViaHas(f, flood, net, copy);
      var h := net.nodes[copy.via].state.trace[copy.index].handle;
      assert topo(copy.via, h).0 < |net.nodes|;
    } else {
      assert p.ttl == flood.ttl;
    }
  }

  lemma ReceivedRecords(c: Config, s: State, key: u16, bytes: seq<byte>, at: Addr, nowUs: u64)
    requires Inv(c.hasher, s) && at !in s.store && at != s.announceAt
    ensures var t := Receive(c, s, key, bytes, at, nowUs);
            && NodeGrows(s, t)
            && (forall r :: r in t.sent && r !in s.sent ==> r == (at, key) && at in t.store)
            && (forall a :: a in t.store && a !in s.store ==> a == at && NewPacket(c, s, bytes) == Some(t.store[at]))
  {
    hide Inv, Receive, NewPacket, Taken, Known, IdOf, Emplace, Located, StoreGrows;
    InvHandlePeers(c.hasher, s);
    ReceiveShape(c, s, key, bytes, at, nowUs);
    TakenAt(c, s, key, bytes, at);
    ReceiveStoreGrows(c, s, key, bytes, at, nowUs);
    EmplaceAdds(s.sent, at, key);
  }

  lemma OneChanges(net: Net, net': Net, m: nat)
    requires m < |net.nodes| == |net'.nodes| && net.copies <= net'.copies
    requires net'.nodes == net.nodes[m := net'.nodes[m]] && NodeGrows(net.nodes[m].state, net'.nodes[m].state)
    ensures OnlyNode(net, net', m)
  {
    hide StoreGrows;
    forall n | 0 <= n < |net.nodes| ensures NodeGrows(net.nodes[n].state, net'.nodes[n].state) {
      SameGrowing(net.nodes[n].state);
    }
  }

  lemma DeliverNews(f: Fleet, flood: Flood, topo: Topology, net: Net, net': Net, copy: Copy, at: Addr)
    requires NetOk(f, flood, net) && CopyOk(f, flood, net, copy) && Wired(topo, net, copy)
    requires TwoWay(topo, |net.nodes|) && copy.node < |net.nodes| && (copy.Relayed? ==> Writable(copy.packet))
    requires OnlyNode(net, net', copy.node) && net'.copies == net.copies && at !in net.nodes[copy.node].state.store
    requires var s, t := net.nodes[copy.node].state, net'.nodes[copy.node].state;
             && t.trace == s.trace
             && (forall r :: r in t.sent && r !in s.sent ==> r == (at, copy.key) && at in t.store)
             && (forall a :: a in t.store && a !in s.store ==>
                               a == at && NewPacket(f.ConfigOf(copy.node), s, CopyBytes(copy)) == Some(t.store[at]))
    ensures NewsOk(f, flood, topo, net, net', copy.node)
  {
    hide NetOk, CopyOk, Bears, LevelOk, NewPacket, Has, Traced, CopyBytes, TwoWay, Wired, Writable, NetGrows, Copied;
    SameSize(net, net');
    var s, t := net.nodes[copy.node].state, net'.nodes[copy.node].state;
    if Stores(f, flood, t, at) {
      DeliveredNews(f, flood, topo, net, copy, t.store[at]);
      OldLevel(f, flood, net, net', t.store[at].ttl);
      if topo(copy.node, copy.key).0 < |net.nodes| {
        StillHas(f, flood, net, net', topo(copy.node, copy.key).0);
      }
    }
  }

  lemma SameSize(net: Net, net': Net)
    requires NetGrows(net, net')
    ensures |net'.nodes| == |net.nodes|
  {
  }

  lemma DeliverSpreads(f: Fleet, flood: Flood, topo: Topology, net: Net, e: MeshEvent)
    requires Spread(f, flood, topo, net) && MeshOk(f, flood, net, e) && e.Deliver? && TwoWay(topo, |net.nodes|)
    ensures Spread(f, flood, topo, MeshStep(f, net, e))
  {
    var copy, net' := net.copies[e.copy], MeshStep(f, net, e);
    var m := copy.node;
    assert net'.nodes[m].state == Receive(f.ConfigOf(m), net.nodes[m].state, copy.key, CopyBytes(copy), e.at, e.nowUs);
    assert NodeOk(f, flood, net.nodes[m]) && CopyOk(f, flood, net, copy) && Wired(topo, net, copy);
    DeliverKeeps(f, flood, net, e);
    NodeInv(f, flood, net.nodes[m]);
    hide NodeOk, CopyOk, RecordsOk, LevelsOk, Copied, Wired, Bears, DifferentSends, NodeGrows, Inv, Receive, NewPacket,
         CopyBytes, InjectionOk, TwoWay, OnlyNode, NewsOk, Writable;
    ReceivedRecords(f.ConfigOf(m), net.nodes[m].state, copy.key, CopyBytes(copy), e.at, e.nowUs);
    TraceSame(f.ConfigOf(m), net.nodes[m].state, copy.key, CopyBytes(copy), e.at, e.nowUs);
    OneChanges(net, net', m);
    DeliverNews(f, flood, topo, net, net', copy, e.at);
    SpreadKept(f, flood, topo, net, net', m);
  }

  lemma TraceSame(c: Config, s: State, key: u16, bytes: seq<byte>, at: Addr, nowUs: u64)
    requires Inv(c.hasher, s) && at !in s.store
    ensures Receive(c, s, key, bytes, at, nowUs).trace == s.trace
  {
    ReceivedAt(c, s, key, bytes, at, nowUs);
  }

  /** What an event of a node's own adds. */
  lemma ActedRecords(c: Config, s: State, e: Event)
    requires Inv(c.hasher, s) && Allowed(s, e) && !e.CleaningUp? && !e.Received?
    ensures var t := Step(c, s, e);
            && NodeGrows(s, t)
            && (forall r :: r in t.sent && r !in s.sent ==> Traced(t.trace, 0, r) && (r.0 in t.store || r.0 == t.announceAt))
            && (forall a :: a in t.store && a !in s.store ==> e.Originated? && t.store[a] == e.packet)
  {
    StepStoreGrows(c, s, e);
    StepKeeps(c, s, e);
    ExtendsPrefix(s, Step(c, s, e));
    if e.Sending? {
      SendingIs(c, s, e);
      SentRecords(c.hasher, s);
    } else {
      hide Inv, IdOf, Known, AnnounceAll, Originate, Receive, SendPackets, Cleanup, StoreGrows, Extends;
      if e.Announcing? {
        AnnounceAllExact(c, s, e.nowUs);
      } else if e.Originated? {
        OriginateExact(c.hasher, s, e.packet, e.at);
      }
    }
  }

  lemma SentRecords(hasher: Hasher, s: State)
    requires Inv(hasher, s)
    ensures var t := SendPackets(s);
            && t.store == s.store
            && forall r :: r in t.sent && r !in s.sent ==> Traced(t.trace, 0, r) && (r.0 in t.store || r.0 == t.announceAt)
  {
    SendPacketsKeeps(hasher, s);
    SendFrom(hasher, s);
    assert BroadcastOk(s.broadcast, s.store);
    hide Inv, SendPackets, Extends;
    var t := SendPackets(s);
    forall r | r in t.sent && r !in s.sent ensures Traced(t.trace, 0, r) && (r.0 in t.store || r.0 == t.announceAt) {
      assert Traced(t.trace, |s.trace|, r);
      var i :| |s.trace| <= i < |t.trace| && Pair(t.trace[i]) == r;
    }
  }

  lemma LocalNews(f: Fleet, flood: Flood, topo: Topology, net: Net, net': Net, m: nat, e: Event)
    requires m < |net.nodes| == |net'.nodes| && ActionOk(f, flood, net.nodes[m].state, e)
    requires var s, t := net.nodes[m].state, net'.nodes[m].state;
             && (forall r :: r in t.sent && r !in s.sent ==> Traced(t.trace, 0, r) && (r.0 in t.store || r.0 == t.announceAt))
             && (forall a :: a in t.store && a !in s.store ==> e.Originated? && t.store[a] == e.packet)
             && (forall i :: |s.trace| <= i < |t.trace| ==> Copied(net', m, i))
    requires forall j :: |net.copies| <= j < |net'.copies| ==> Wired(topo, net', net'.copies[j])
    ensures NewsOk(f, flood, topo, net, net', m)
  {
    hide Good, Bears, Wired, Copied, Traced, Has, AtLevel;
  }

  lemma LocalSpreads(f: Fleet, flood: Flood, topo: Topology, net: Net, e: MeshEvent)
    requires Spread(f, flood, topo, net) && MeshOk(f, flood, net, e) && Follows(topo, |net.nodes|, e) && e.Local?
    requires |f.name(e.node)| <= 65535
    ensures Spread(f, flood, topo, MeshStep(f, net, e))
  {
    var net', m := MeshStep(f, net, e), e.node;
    assert net'.nodes[m].state == Step(f.ConfigOf(m), net.nodes[m].state, e.event);
    assert NodeOk(f, flood, net.nodes[m]);
    LocalKeeps(f, flood, net, e);
    NodeInv(f, flood, net.nodes[m]);
    hide NodeOk, CopyOk, RecordsOk, LevelsOk, DifferentSends, NodeGrows, Inv, Step, OnlyNode, NewsOk, Copied, Wired, Traced;
    ActedRecords(f.ConfigOf(m), net.nodes[m].state, e.event);
    OneChanges(net, net', m);
    GrowsTrace(net.nodes[m].state, net'.nodes[m].state);
    NewCopies(f, topo, net, e);
    LocalNews(f, flood, topo, net, net', m, e.event);
    SpreadKept(f, flood, topo, net, net', m);
  }

  lemma GrowsTrace(s: State, t: State)
    requires NodeGrows(s, t)
    ensures s.trace <= t.trace
  {
  }

  lemma NewCopies(f: Fleet, topo: Topology, net: Net, e: MeshEvent)
    requires Enabled(net, e) && e.Local? && Follows(topo, |net.nodes|, e)
    requires net.nodes[e.node].state.trace <= MeshStep(f, net, e).nodes[e.node].state.trace
    ensures var net', m := MeshStep(f, net, e), e.node;
            && (forall j :: |net.copies| <= j < |net'.copies| ==> Wired(topo, net', net'.copies[j]))
            && (forall i :: |net.nodes[m].state.trace| <= i < |net'.nodes[m].state.trace| ==> Copied(net', m, i))
  {
    hide Act;
    var net', m := MeshStep(f, net, e), e.node;
    var node, from := net'.nodes[m], |net.nodes[m].state.trace|;
    var made := CopiesOf(m, node, from, e.links);
    assert net'.copies == net.copies + made;
    forall j | |net.copies| <= j < |net'.copies| ensures Wired(topo, net', net'.copies[j]) {
      assert net'.copies[j] == CopyOf(m, node, from + (j - |net.copies|), e.links);
    }
    forall i | from <= i < |node.state.trace| ensures Copied(net', m, i) {
      assert net'.copies[|net.copies| + (i - from)] == CopyOf(m, node, i, e.links);
    }
  }

  // ---- Runs ----

  lemma StepGrows(f: Fleet, flood: Flood, net: Net, e: MeshEvent)
    requires NetOk(f, flood, net) && MeshOk(f, flood, net, e)
    ensures NetGrows(net, MeshStep(f, net, e))
  {
    var net' := MeshStep(f, net, e);
    hide NodeOk, CopyOk, DifferentSends, NodeGrows, Inv, Receive, Step, CopyBytes, InjectionOk, Traced;
    match e {
      case Inject(_, _, _) =>
        forall n | 0 <= n < |net.nodes| ensures NodeGrows(net.nodes[n].state, net'.nodes[n].state) {
          SameGrowing(net.nodes[n].state);
        }
      case Deliver(j, at, nowUs) =>
        var copy := net.copies[j];
        NodeInv(f, flood, net.nodes[copy.node]);
        ReceivedRecords(f.ConfigOf(copy.node), net.nodes[copy.node].state, copy.key, CopyBytes(copy), at, nowUs);
        OneChanges(net, net', copy.node);
      case Local(n, event, links) =>
        NodeInv(f, flood, net.nodes[n]);
        ActedRecords(f.ConfigOf(n), net.nodes[n].state, event);
        OneChanges(net, net', n);
    }
  }

  lemma GrowsTransitive(a: Net, b: Net, c: Net)
    requires NetGrows(a, b) && NetGrows(b, c)
    ensures NetGrows(a, c)
  {
    forall n | 0 <= n < |a.nodes| ensures NodeGrows(a.nodes[n].state, c.nodes[n].state) {
      assert NodeGrows(a.nodes[n].state, b.nodes[n].state) && NodeGrows(b.nodes[n].state, c.nodes[n].state);
    }
  }

  /** A run over the given links. */
  ghost predicate LinkedRun(
    f: Fleet, flood: Flood, topo: Topology, announceAt: seq<Addr>, events: seq<MeshEvent>, nets: seq<Net>)
  {
    && MeshRun(f, flood, announceAt, events, nets) && NamesFit(f, |announceAt|) && TwoWay(topo, |announceAt|)
    && forall i :: 0 <= i < |events| ==> Follows(topo, |announceAt|, events[i])
  }

  lemma StartSpread(f: Fleet, flood: Flood, topo: Topology, announceAt: seq<Addr>)
    ensures Spread(f, flood, topo, Start(announceAt))
  {
    StartOk(f, flood, announceAt);
  }

  lemma {:induction false} RunSpreads(
    f: Fleet, flood: Flood, topo: Topology, announceAt: seq<Addr>, events: seq<MeshEvent>, nets: seq<Net>, i: nat)
    requires LinkedRun(f, flood, topo, announceAt, events, nets) && i < |nets|
    ensures Spread(f, flood, topo, nets[i]) && |nets[i].nodes| == |announceAt|
  {
    hide Spread, MeshStep, TwoWay, Follows;
    if i == 0 {
      StartSpread(f, flood, topo, announceAt);
    } else {
      RunSpreads(f, flood, topo, announceAt, events, nets, i - 1);
      var net, e := nets[i - 1], events[i - 1];
      assert nets[i] == MeshStep(f, net, e) && Follows(topo, |announceAt|, e);
      StepNodes(f, net, e);
      match e {
        case Inject(_, _, _) => InjectSpreads(f, flood, topo, net, e);
        case Deliver(_, _, _) => DeliverSpreads(f, flood, topo, net, e);
        case Local(n, _, _) => LocalSpreads(f, flood, topo, net, e);
      }
    }
  }

  lemma {:induction false} RunGrows(
    f: Fleet, flood: Flood, announceAt: seq<Addr>, events: seq<MeshEvent>, nets: seq<Net>, i: nat, j: nat)
    requires MeshRun(f, flood, announceAt, events, nets) && NamesFit(f, |announceAt|) && i <= j < |nets|
    ensures NetGrows(nets[i], nets[j])
    decreases j - i
  {
    hide NetOk, MeshStep, NodeGrows;
    if i == j {
      forall n | 0 <= n < |nets[i].nodes| ensures NodeGrows(nets[i].nodes[n].state, nets[i].nodes[n].state) {
        SameGrowing(nets[i].nodes[n].state);
      }
    } else {
      RunGrows(f, flood, announceAt, events, nets, i, j - 1);
      RunOk(f, flood, announceAt, events, nets, j - 1);
      StepGrows(f, flood, nets[j - 1], events[j - 1]);
      assert nets[j] == MeshStep(f, nets[j - 1], events[j - 1]);
      GrowsTransitive(nets[i], nets[j - 1], nets[j]);
    }
  }

  // ---- When nothing is lost and nothing is left to send ----

  /** Every copy of the followed packet that leads to a node has been delivered there at least once. */
  ghost predicate AllDelivered(f: Fleet, flood: Flood, events: seq<MeshEvent>, net: Net) {
    forall j :: 0 <= j < |net.copies| && FloodCopy(f, flood, net, net.copies[j]) && net.copies[j].node < |net.nodes| ==>
                  WasDelivered(events, j)
  }

  ghost predicate WasDelivered(events: seq<MeshEvent>, j: nat) {
    exists i :: 0 <= i < |events| && events[i].Deliver? && events[i].copy == j
  }

  /** Every node has a record of the followed packet, if it may travel, for each of its links, and has sent its own
      announce over each of them if that is the followed packet. */
  ghost predicate Settled(f: Fleet, flood: Flood, topo: Topology, net: Net) {
    forall n, k :: 0 <= n < |net.nodes| && topo(n, k).0 < |net.nodes| ==>
                     SettledOver(f, flood, net.nodes[n].state, k)
  }

  ghost predicate SettledOver(f: Fleet, flood: Flood, s: State, k: u16) {
    && (forall a :: Stores(f, flood, s, a) && s.store[a].ttl > 0 ==> (a, k) in s.sent)
    && (SentOwn(f, flood, s) ==> exists i :: SentOver(f, flood, s, i, k) && s.trace[i].packet == s.announceAt)
  }

  ghost predicate SentOver(f: Fleet, flood: Flood, s: State, i: int, k: u16) {
    0 <= i < |s.trace| && s.trace[i].handle == k && Bears(f, flood, s.trace[i].content)
  }

  /** A send that nothing stands in the way of leaves the record behind. */
  lemma SendSettles(hasher: Hasher, s: State, i: nat, k: u16)
    requires Inv(hasher, s) && i < |s.broadcast| && Reachable(s.connections, k) && !CoverFound(s, i, k)
    ensures (s.broadcast[i], k) in SendPackets(s).sent
  {
    hide Inv, SendPackets, CoverFound;
    CoverageIff(hasher, s, i, k);
    SendPacketsKeeps(hasher, s);
  }

  /** Delivering a copy that may be stored makes its node know the packet. */
  lemma DeliveryTeaches(f: Fleet, flood: Flood, net: Net, e: MeshEvent)
    requires NetOk(f, flood, net) && MeshOk(f, flood, net, e) && e.Deliver?
    requires var copy := net.copies[e.copy]; copy.Relayed? && Bears(f, flood, copy.packet) && copy.packet.ttl >= 2
    ensures Known(MeshStep(f, net, e).nodes[net.copies[e.copy].node].state, flood.id)
  {
    var copy, net' := net.copies[e.copy], MeshStep(f, net, e);
    var c, node := f.ConfigOf(copy.node), net.nodes[copy.node];
    assert NodeOk(f, flood, node) && CopyOk(f, flood, net, copy);
    assert net'.nodes[copy.node].state == Receive(c, node.state, copy.key, CopyBytes(copy), e.at, e.nowUs);
    NodeInv(f, flood, node);
    Teaches(f, flood, c, node.state, copy.packet, copy.key, e.at, e.nowUs);
  }

  lemma Teaches(f: Fleet, flood: Flood, c: Config, s: State, p: Packet, key: u16, at: Addr, nowUs: u64)
    requires Inv(c.hasher, s) && c.hasher == f.hasher && at !in s.store && at != s.announceAt
    requires Good(p) && Bears(f, flood, p) && p.ttl >= 2 && Writable(p)
    ensures Known(Receive(c, s, key, PacketBytes(p), at, nowUs), flood.id)
  {
    var t := Receive(c, s, key, PacketBytes(p), at, nowUs);
    hide PacketBytes, Receive, Good, IdOf, Inv, StoreGrows, NewPacket, NextPacket, Known, Extends;
    ReceivedAt(c, s, key, PacketBytes(p), at, nowUs);
    if Known(s, flood.id) {
      StillKnown(s, t, flood.id);
    } else {
      NewOnArrival(c, s, p);
      ReceiveKeeps(c, s, key, PacketBytes(p), at, nowUs);
      assert t.store == s.store[at := NextPacket(p)];
      StoredIsKnown(f, flood, t, at);
    }
  }

  lemma NewOnArrival(c: Config, s: State, p: Packet)
    requires Good(p) && p.ttl >= 2 && Writable(p) && !Known(s, IdOf(c.hasher, p))
    ensures NewPacket(c, s, PacketBytes(p)) == Some(NextPacket(p)) && IdOf(c.hasher, NextPacket(p)) == IdOf(c.hasher, p)
  {
    hide PacketBytes, ParsePacket, AsPacket, Good, IdOf, NewPacket, RelayBytes, NextPacket, Known;
    GoodNext(c.hasher, p);
    RelaysNext(c.inflate, p);
    NewUnlessKnown(c, s, PacketBytes(p), NextPacket(p));
  }

  lemma StillKnown(s: State, t: State, id: PacketId)
    requires StoreGrows(s, t) && Known(s, id)
    ensures Known(t, id)
  {
  }

  // ---- Reaching the neighbours ----

  /** A run that is over: everything has been delivered and there is nothing left to send. */
  ghost predicate Over(f: Fleet, flood: Flood, topo: Topology, announceAt: seq<Addr>, events: seq<MeshEvent>, nets: seq<Net>) {
    && LinkedRun(f, flood, topo, announceAt, events, nets)
    && AllDelivered(f, flood, events, nets[|events|]) && Settled(f, flood, topo, nets[|events|])
  }

  /** What was sent over a link, with time to live to spare, has taught the node at the other end. */
  lemma SentTeaches(
    f: Fleet, flood: Flood, topo: Topology, announceAt: seq<Addr>, events: seq<MeshEvent>, nets: seq<Net>, n: nat, k: u16, i: nat)
    requires Over(f, flood, topo, announceAt, events, nets) && n < |announceAt| && topo(n, k).0 < |announceAt|
    requires Spread(f, flood, topo, nets[|events|]) && |nets[|events|].nodes| == |announceAt|
    requires SentOver(f, flood, nets[|events|].nodes[n].state, i, k)
    requires nets[|events|].nodes[n].state.trace[i].content.ttl >= 2
    ensures Known(nets[|events|].nodes[topo(n, k).0].state, flood.id)
  {
    hide NodeOk, DifferentSends, RecordsOk, LevelsOk, Bears, Good, MeshStep, Follows, TwoWay, Settled, NamesFit;
    var net := nets[|events|];
    assert Copied(net, n, i);
    var j :| 0 <= j < |net.copies| && net.copies[j].Relayed? && net.copies[j].via == n && net.copies[j].index == i;
    var copy := net.copies[j];
    assert CopyOk(f, flood, net, copy) && Wired(topo, net, copy);
    assert FloodCopy(f, flood, net, copy) && copy.node == topo(n, k).0;
    assert WasDelivered(events, j);
    var d :| 0 <= d < |events| && events[d].Deliver? && events[d].copy == j;
    DeliveredStays(f, flood, announceAt, events, nets, d, j);
  }

  lemma DeliveredStays(
    f: Fleet, flood: Flood, announceAt: seq<Addr>, events: seq<MeshEvent>, nets: seq<Net>, d: nat, j: nat)
    requires MeshRun(f, flood, announceAt, events, nets) && NamesFit(f, |announceAt|)
    requires d < |events| && events[d].Deliver? && events[d].copy == j < |nets[|events|].copies|
    requires var copy := nets[|events|].copies[j];
             copy.Relayed? && Bears(f, flood, copy.packet) && copy.packet.ttl >= 2 && copy.node < |nets[|events|].nodes|
    ensures Known(nets[|events|].nodes[nets[|events|].copies[j].node].state, flood.id)
  {
    hide NetOk, Bears, MeshStep, NodeGrows, Known;
    var net, e, copy := nets[d], events[d], nets[|events|].copies[j];
    RunOk(f, flood, announceAt, events, nets, d);
    RunGrows(f, flood, announceAt, events, nets, d, |events|);
    RunGrows(f, flood, announceAt, events, nets, d + 1, |events|);
    assert MeshOk(f, flood, net, e) && nets[d + 1] == MeshStep(f, net, e);
    assert net.copies[j] == copy;
    DeliveryTeaches(f, flood, net, e);
    GrowsKnown(nets[d + 1].nodes[copy.node].state, nets[|events|].nodes[copy.node].state, flood.id);
  }

  lemma GrowsKnown(s: State, t: State, id: PacketId)
    requires NodeGrows(s, t) && Known(s, id)
    ensures Known(t, id)
  {
  }

  /** When it is over, every neighbour of a node that has the packet with two units of time to live or more has it too. */
  lemma NeighbourHas(
    f: Fleet, flood: Flood, topo: Topology, announceAt: seq<Addr>, events: seq<MeshEvent>, nets: seq<Net>,
    n: nat, ttl: nat, k: u16)
    requires Over(f, flood, topo, announceAt, events, nets) && n < |announceAt| == |nets[|events|].nodes|
    requires HoldsAt(f, flood, nets[|events|].nodes[n].state, ttl) && ttl >= 2 && topo(n, k).0 < |announceAt|
    ensures Has(f, flood, nets[|events|], topo(n, k).0)
  {
    RunSpreads(f, flood, topo, announceAt, events, nets, |events|);
    var net := nets[|events|];
    var s := net.nodes[n].state;
    assert NodeOk(f, flood, net.nodes[n]) && RecordsOk(f, flood, topo, net, n) && SettledOver(f, flood, s, k);
    hide Over, Spread, NetOk, Bears, Good, Has, Traced;
    if a :| Stores(f, flood, s, a) && s.store[a].ttl == ttl {
      assert (a, k) in s.sent && Accounted(f, flood, topo, net, n, (a, k));
      if Traced(s.trace, 0, (a, k)) {
        var i := TracedContent(f, flood, net.nodes[n], a, k);
        SentTeaches(f, flood, topo, announceAt, events, nets, n, k, i);
        KnownHas(f, flood, net, topo(n, k).0);
      }
    } else {
      var i :| SentOver(f, flood, s, i, k) && s.trace[i].packet == s.announceAt;
      assert EntryOk(f, flood, s, s.trace[i]);
      SentTeaches(f, flood, topo, announceAt, events, nets, n, k, i);
      KnownHas(f, flood, net, topo(n, k).0);
    }
  }

  lemma KnownHas(f: Fleet, flood: Flood, net: Net, n: nat)
    requires n < |net.nodes| && Known(net.nodes[n].state, flood.id)
    ensures Has(f, flood, net, n)
  {
  }

  lemma TracedContent(f: Fleet, flood: Flood, node: Node, a: Addr, k: u16) returns (i: nat)
    requires NodeOk(f, flood, node) && Stores(f, flood, node.state, a) && Traced(node.state.trace, 0, (a, k))
    ensures SentOver(f, flood, node.state, i, k) && node.state.trace[i].content == node.state.store[a]
  {
    hide Bears, Good, Extends, AnnounceOk, StoreOk;
    var s := node.state;
    NotAnnounce(f.hasher, s);
    i :| 0 <= i < |s.trace| && Pair(s.trace[i]) == (a, k);
    assert EntryOk(f, flood, s, s.trace[i]);
  }

  // ---- How much time to live is used up ----

  /** The node stores the packet with this time to live. */
  ghost predicate StoresAt(f: Fleet, flood: Flood, s: State, ttl: nat) {
    exists a :: Stores(f, flood, s, a) && s.store[a].ttl == ttl
  }

  lemma OneTtl(f: Fleet, flood: Flood, node: Node, x: nat, y: nat)
    requires NodeOk(f, flood, node) && StoresAt(f, flood, node.state, x) && StoresAt(f, flood, node.state, y)
    ensures x == y
  {
    hide NodeOk, Bears;
    var s := node.state;
    var a :| Stores(f, flood, s, a) && s.store[a].ttl == x;
    var b :| Stores(f, flood, s, b) && s.store[b].ttl == y;
    StoredOnce(f, flood, node, a, b);
  }

  lemma SpreadNode(f: Fleet, flood: Flood, topo: Topology, net: Net, n: nat)
    requires Spread(f, flood, topo, net) && n < |net.nodes|
    ensures NodeOk(f, flood, net.nodes[n]) && LevelsOk(f, flood, net, n)
  {
    hide NodeOk, LevelsOk;
  }

  /** The packet is stored with the initial time to live, or with one unit less than somewhere else. */
  lemma NextLevel(f: Fleet, flood: Flood, topo: Topology, net: Net, n: nat, ttl: nat) returns (m: nat)
    requires Spread(f, flood, topo, net) && n < |net.nodes| && StoresAt(f, flood, net.nodes[n].state, ttl)
    ensures ttl <= flood.ttl
    ensures ttl + 1 < flood.ttl ==> m < |net.nodes| && StoresAt(f, flood, net.nodes[m].state, ttl + 1)
  {
    hide Spread, Bears, SentOwn, NodeOk;
    SpreadNode(f, flood, topo, net, n);
    var a :| Stores(f, flood, net.nodes[n].state, a) && net.nodes[n].state.store[a].ttl == ttl;
    assert LevelOk(f, flood, net, ttl);
    m := n;
    if ttl + 1 < flood.ttl {
      m :| 0 <= m < |net.nodes| && HoldsAt(f, flood, net.nodes[m].state, ttl + 1);
    }
  }

  /** A node for each time to live from `ttl` up to, but without, the initial one. */
  lemma {:induction false} Levels(f: Fleet, flood: Flood, topo: Topology, net: Net, n: nat, ttl: nat) returns (path: seq<nat>)
    requires Spread(f, flood, topo, net) && n < |net.nodes| && StoresAt(f, flood, net.nodes[n].state, ttl)
    ensures ttl <= flood.ttl && |path| == flood.ttl - ttl
    ensures forall i :: 0 <= i < |path| ==> path[i] < |net.nodes| && StoresAt(f, flood, net.nodes[path[i]].state, ttl + i)
    decreases 256 - ttl
  {
    hide Spread, StoresAt;
    var m := NextLevel(f, flood, topo, net, n, ttl);
    if ttl == flood.ttl {
      path := [];
    } else if ttl + 1 == flood.ttl {
      path := [n];
    } else {
      var rest := Levels(f, flood, topo, net, m, ttl + 1);
      path := [n] + rest;
      forall i | 0 <= i < |path| ensures path[i] < |net.nodes| && StoresAt(f, flood, net.nodes[path[i]].state, ttl + i) {
        if i > 0 {
          assert path[i] == rest[i - 1] && StoresAt(f, flood, net.nodes[rest[i - 1]].state, ttl + 1 + (i - 1));
        }
      }
    }
  }

  /** No packet is stored with more time to live used up than there are nodes. */
  lemma UsesAtMost(f: Fleet, flood: Flood, topo: Topology, net: Net, n: nat, ttl: nat)
    requires Spread(f, flood, topo, net) && n < |net.nodes| && StoresAt(f, flood, net.nodes[n].state, ttl)
    ensures flood.ttl - ttl <= |net.nodes|
  {
    hide Spread, StoresAt, NodeOk, LevelsOk;
    var path := Levels(f, flood, topo, net, n, ttl);
    forall i, j | 0 <= i < j < |path| ensures path[i] != path[j] {
      SpreadNode(f, flood, topo, net, path[i]);
      if path[i] == path[j] {
        OneTtl(f, flood, net.nodes[path[i]], ttl + i, ttl + j);
        assert false;
      }
    }
    forall x | x in path ensures x < |net.nodes| {
      var i :| 0 <= i < |path| && path[i] == x;
    }
    Pigeonhole(path, |net.nodes|);
  }

  // ---- Reaching everybody ----

  ghost predicate Linked(topo: Topology, n: nat, m: nat) {
    exists k :: topo(n, k).0 == m
  }

  /** Each node of the path is linked to the next. */
  ghost predicate Path(topo: Topology, nodes: nat, path: seq<nat>) {
    && path != []
    && (forall i :: 0 <= i < |path| ==> path[i] < nodes)
    && (forall i :: 0 <= i < |path| - 1 ==> Linked(topo, path[i], path[i + 1]))
  }

  /** With an initial time to live of two more than there are nodes, whoever has the packet has it with two units or more. */
  lemma HasEnough(f: Fleet, flood: Flood, topo: Topology, net: Net, n: nat) returns (ttl: nat)
    requires Spread(f, flood, topo, net) && n < |net.nodes| && Has(f, flood, net, n) && flood.ttl >= |net.nodes| + 2
    ensures ttl >= 2 && HoldsAt(f, flood, net.nodes[n].state, ttl)
  {
    var s := net.nodes[n].state;
    assert NodeOk(f, flood, net.nodes[n]);
    NodeInv(f, flood, net.nodes[n]);
    hide Spread, NodeOk, Inv, Bears, SentOwn;
    if Known(s, flood.id) {
      var a := KnownIsStored(f, flood, s);
      ttl := s.store[a].ttl;
      assert StoresAt(f, flood, s, ttl);
      UsesAtMost(f, flood, topo, net, n, ttl);
    } else {
      ttl := flood.ttl;
    }
  }

  /** When it is over, and the initial time to live exceeds the number of nodes by two, everybody whom a path of links leads
      to from a node that has the packet has it too, whatever the order in which copies arrived. */
  lemma {:induction false} ReachesAll(
    f: Fleet, flood: Flood, topo: Topology, announceAt: seq<Addr>, events: seq<MeshEvent>, nets: seq<Net>, path: seq<nat>)
    requires Over(f, flood, topo, announceAt, events, nets) && Path(topo, |announceAt|, path)
    requires |nets[|events|].nodes| == |announceAt| && flood.ttl >= |announceAt| + 2
    requires Has(f, flood, nets[|events|], path[0])
    ensures Has(f, flood, nets[|events|], path[|path| - 1])
    decreases |path|
  {
    hide Spread, Has, HoldsAt, AllDelivered, Settled;
    if |path| > 1 {
      RunSpreads(f, flood, topo, announceAt, events, nets, |events|);
      var ttl := HasEnough(f, flood, topo, nets[|events|], path[0]);
      assert Linked(topo, path[0], path[1]);
      var k :| topo(path[0], k).0 == path[1];
      NeighbourHas(f, flood, topo, announceAt, events, nets, path[0], ttl, k);
      ReachesAll(f, flood, topo, announceAt, events, nets, path[1..]);
    }
  }
}
