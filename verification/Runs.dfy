/** Whole runs of a repeater. */
module Runs {
  import opened Bytes
  import opened Packets
  import opened ProtocolParser
  import opened Relay
  import opened Clock
  import opened Multimap
  import opened TrackerModel
  import opened Invariants
  import opened Sending

  /** One thing that happens to a repeater. `at` is where a packet goes if it is stored. */
  datatype Event =
    | Received(key: u16, bytes: seq<byte>, at: Addr, nowUs: u64)
    | Originated(packet: Packet, at: Addr)
    | Announcing(nowUs: u64)
    | Sending
    | Connected(key: u16, address: seq<byte>, nowUs: u64)
    | Disconnected(key: u16)
    | Discovered(address: seq<byte>, nowUs: u64)
    | Connecting(address: seq<byte>)
    | LinkSet(key: u16, mtu: u16, valueHandle: u16)
    | Touched(key: u16)
    | CleaningUp(nowUs: u64, leftover: Leftover)

  /** Looking up a connection that is not there inserts a default one. */
  function Touch(s: State, key: u16): State {
    s.(connections := s.connections[key := Lookup(s.connections, key)])
  }

  function Step(c: Config, s: State, e: Event): State {
    match e
    case Received(key, bytes, at, nowUs) => Receive(c, s, key, bytes, at, nowUs)
    case Originated(packet, at) => Originate(c.hasher, s, packet, at)
    case Announcing(nowUs) => AnnounceAll(c, s, nowUs)
    case Sending => SendPackets(s)
    case Connected(key, address, nowUs) => Connect(s, key, address, nowUs)
    case Disconnected(key) => Disconnect(s, key)
    case Discovered(address, nowUs) => AddNeighbour(s, address, nowUs)
    case Connecting(address) => ConnectionStarted(s, address)
    case LinkSet(key, mtu, valueHandle) => SetLink(s, key, mtu, valueHandle)
    case Touched(key) => Touch(s, key)
    case CleaningUp(nowUs, leftover) => Cleanup(s, nowUs, leftover)
  }

  /** A new packet is stored where no packet is; a message of this node's own names a sender that is known, if any. */
  predicate Allowed(s: State, e: Event) {
    && ((e.Received? || e.Originated?) ==> e.at !in s.store && e.at != s.announceAt)
    && (e.Originated? ==> SenderIn(e.packet, s.peers))
  }

  function Run(c: Config, s: State, events: seq<Event>): State {
    if events == [] then s else Step(c, Run(c, s, events[..|events| - 1]), events[|events| - 1])
  }

  ghost predicate AllowedRun(c: Config, s: State, events: seq<Event>) {
    forall i :: 0 <= i < |events| ==> Allowed(Run(c, s, events[..i]), events[i])
  }

  lemma AllowedPrefix(c: Config, s: State, events: seq<Event>)
    requires AllowedRun(c, s, events) && events != []
    ensures AllowedRun(c, s, events[..|events| - 1])
    ensures Allowed(Run(c, s, events[..|events| - 1]), events[|events| - 1])
  {
    var before := events[..|events| - 1];
    forall i | 0 <= i < |before| ensures Allowed(Run(c, s, before[..i]), before[i]) {
      assert before[..i] == events[..i];
    }
  }

  lemma RunStep(c: Config, s: State, events: seq<Event>, e: Event)
    ensures Run(c, s, events + [e]) == Step(c, Run(c, s, events), e)
  {
    assert (events + [e])[..|events|] == events;
  }

  lemma AllowedFirst(c: Config, s: State, events: seq<Event>, k: nat)
    requires AllowedRun(c, s, events) && k <= |events|
    ensures AllowedRun(c, s, events[..k])
  {
    forall i | 0 <= i < k ensures Allowed(Run(c, s, events[..k][..i]), events[..k][i]) {
      assert events[..k][..i] == events[..i];
    }
  }

  /** One more allowed event. */
  lemma OneMore(c: Config, s: State, events: seq<Event>, e: Event)
    requires AllowedRun(c, s, events)
    ensures Run(c, s, events + [e]) == Step(c, Run(c, s, events), e)
    ensures Allowed(Run(c, s, events), e) ==> AllowedRun(c, s, events + [e])
  {
    hide Step, Allowed;
    var all := events + [e];
    RunStep(c, s, events, e);
    if Allowed(Run(c, s, events), e) {
      forall i | 0 <= i < |all| ensures Allowed(Run(c, s, all[..i]), all[i]) {
        assert all[..i] == if i < |events| then events[..i] else events;
      }
    }
  }

  lemma RunNothing(c: Config, s: State)
    ensures Run(c, s, []) == s
  {
  }

  lemma {:induction false} RunBoth(c: Config, s: State, first: seq<Event>, second: seq<Event>)
    requires AllowedRun(c, s, first) && AllowedRun(c, Run(c, s, first), second)
    ensures Run(c, s, first + second) == Run(c, Run(c, s, first), second)
    ensures AllowedRun(c, s, first + second)
  {
    hide Step, Allowed, AllowedRun, Run;
    if second == [] {
      assert first + second == first;
      RunNothing(c, Run(c, s, first));
    } else {
      var before, last := second[..|second| - 1], second[|second| - 1];
      AllowedPrefix(c, Run(c, s, first), second);
      RunBoth(c, s, first, before);
      OneMore(c, s, first + before, last);
      OneMore(c, Run(c, s, first), before, last);
      assert first + before + [last] == first + second && before + [last] == second;
    }
  }

  predicate NoCleanup(events: seq<Event>) {
    forall i :: 0 <= i < |events| ==> !events[i].CleaningUp?
  }

  // ---- The invariant over runs ----

  lemma AnnounceAllKeeps(c: Config, s: State, nowUs: u64)
    requires Inv(c.hasher, s)
    ensures Inv(c.hasher, AnnounceAll(c, s, nowUs)) && Extends(s, AnnounceAll(c, s, nowUs))
  {
    AnnounceAllExact(c, s, nowUs);
  }

  lemma StepKeeps(c: Config, s: State, e: Event)
    requires Inv(c.hasher, s) && Allowed(s, e)
    ensures Inv(c.hasher, Step(c, s, e))
    ensures !e.CleaningUp? ==> Extends(s, Step(c, s, e))
  {
    hide Receive, Originate, AnnounceAll, SendPackets, Connect, Disconnect, SetLink, Cleanup, Grows,
         StoresOk, SentPeersOk, BroadcastOk, HandlePeersOk, SendersOk;
    match e
    case Received(key, bytes, at, nowUs) => ReceiveKeeps(c, s, key, bytes, at, nowUs);
    case Originated(packet, at) => OriginateKeeps(c.hasher, s, packet, at);
    case Announcing(nowUs) => AnnounceAllKeeps(c, s, nowUs);
    case Sending => SendPacketsKeeps(c.hasher, s);
    case Connected(key, address, nowUs) => ConnectKeeps(c.hasher, s, key, address, nowUs);
    case Disconnected(key) => DisconnectKeeps(c.hasher, s, key);
    case Discovered(address, nowUs) => SameGrows(s);
    case Connecting(address) => SameGrows(s);
    case LinkSet(key, mtu, valueHandle) => SetLinkKeeps(c.hasher, s, key, mtu, valueHandle);
    case Touched(key) => SameGrows(s);
    case CleaningUp(nowUs, leftover) => CleanupKeeps(c.hasher, s, nowUs, leftover);
  }

  /** Every state of every run keeps all references alive and every connected entry under its own handle. */
  lemma {:induction false} RunKeeps(c: Config, s: State, events: seq<Event>)
    requires Inv(c.hasher, s) && AllowedRun(c, s, events)
    ensures Inv(c.hasher, Run(c, s, events))
  {
    if events != [] {
      AllowedPrefix(c, s, events);
      RunKeeps(c, s, events[..|events| - 1]);
      StepKeeps(c, Run(c, s, events[..|events| - 1]), events[|events| - 1]);
    }
  }

  lemma InitialInv(hasher: Hasher, announceAt: Addr)
    ensures Inv(hasher, Initial(announceAt))
  {
  }

  /** At most once: between two cleanups no packet goes to the same handle twice, nor where a record already names it. */
  lemma {:induction false} AtMostOnce(c: Config, s: State, events: seq<Event>)
    requires Inv(c.hasher, s) && AllowedRun(c, s, events) && NoCleanup(events)
    ensures Extends(s, Run(c, s, events))
  {
    if events != [] {
      var before := events[..|events| - 1];
      AllowedPrefix(c, s, events);
      AtMostOnce(c, s, before);
      RunKeeps(c, s, before);
      hide Inv, Extends, Step;
      StepKeeps(c, Run(c, s, before), events[|events| - 1]);
      ExtendsTransitive(s, Run(c, s, before), Run(c, s, events));
    } else {
      SameGrows(s);
    }
  }

  /** No echo: an accepted packet is never sent back, before the next cleanup, over the connection it came from. */
  lemma NoEcho(c: Config, s: State, key: u16, bytes: seq<byte>, at: Addr, nowUs: u64, events: seq<Event>)
    requires Inv(c.hasher, s) && at !in s.store && at != s.announceAt
    requires at in Receive(c, s, key, bytes, at, nowUs).store
    requires AllowedRun(c, Receive(c, s, key, bytes, at, nowUs), events) && NoCleanup(events)
    ensures !Traced(Run(c, Receive(c, s, key, bytes, at, nowUs), events).trace, |s.trace|, (at, key))
  {
    var t := Receive(c, s, key, bytes, at, nowUs);
    SourceRecorded(c, s, key, bytes, at, nowUs);
    ReceiveKeeps(c, s, key, bytes, at, nowUs);
    AtMostOnce(c, t, events);
    hide Inv, Receive, Run;
  }

  /** The packet that receiving these bytes would add to the store. */
  function NewPacket(c: Config, s: State, bytes: seq<byte>): Option<Packet> {
    var i := ParsePacket(c.inflate, bytes);
    if !i.Decoded? then None
    else
      var p :- AsPacket(i);
      if Known(s, IdOf(c.hasher, p)) then None else Some(p)
  }

  /** The stores, records, queues and trace after receiving. */
  function Taken(c: Config, s: State, key: u16, bytes: seq<byte>, at: Addr): State {
    match NewPacket(c, s, bytes)
    case None => s
    case Some(p) => EnqueueBroadcastFrom(Store(c.hasher, s, p, at), at, key, p.sender)
  }

  /** Equal but for the peers, the clock and the connection table. */
  ghost predicate SameCore(s: State, t: State) {
    && s.messages == t.messages && s.packets == t.packets && s.store == t.store
    && s.announce == t.announce && s.announceAt == t.announceAt
    && s.sent == t.sent && s.sentPeers == t.sentPeers && s.broadcast == t.broadcast && s.targeted == t.targeted
    && s.trace == t.trace
  }

  lemma StoreCore(hasher: Hasher, s: State, t: State, p: Packet, at: Addr)
    requires SameCore(s, t)
    ensures SameCore(Store(hasher, s, p, at), Store(hasher, t, p, at))
    ensures Known(s, IdOf(hasher, p)) == Known(t, IdOf(hasher, p))
  {
    hide IdOf;
  }

  lemma EnqueueCore(s: State, t: State, at: Addr, key: u16, peer: u64)
    requires SameCore(s, t)
    ensures SameCore(EnqueueBroadcastFrom(s, at, key, peer), EnqueueBroadcastFrom(t, at, key, peer))
  {
    hide Emplace;
  }

  lemma AcceptCore(hasher: Hasher, s: State, t: State, p: Packet, at: Addr, key: u16, peer: u64)
    requires SameCore(s, t)
    ensures SameCore(Accept(hasher, s, p, at, key, peer), Accept(hasher, t, p, at, key, peer))
  {
    hide IdOf, Known, Store, EnqueueBroadcastFrom, SameCore;
    StoreCore(hasher, s, t, p, at);
    EnqueueCore(Store(hasher, s, p, at), Store(hasher, t, p, at), at, key, peer);
  }

  lemma PeersChangeCore(s: State, t: State)
    requires PeersChange(s, t)
    ensures SameCore(s, t)
  {
  }

  /** Besides taking a new packet, receiving changes only the peers, the clock and the connection table. */
  lemma ReceiveShape(c: Config, s: State, key: u16, bytes: seq<byte>, at: Addr, nowUs: u64)
    requires HandlePeersOk(s.handlePeers, s.peers)
    ensures SameCore(Taken(c, s, key, bytes, at), Receive(c, s, key, bytes, at, nowUs))
  {
    var t := ConnectionFor(s, key);
    assert SameCore(s, t) && t.handlePeers == s.handlePeers && t.peers == s.peers;
    hide ParsePacket, IdOf, Known, Store, EnqueueBroadcastFrom, ConnectionFor, AsPacket, Dispatch, HandlePeersOk, SendersOk, SameCore;
    var i := ParsePacket(c.inflate, bytes);
    if i.Decoded? {
      DispatchShape(c.hasher, s, t, key, i, at, nowUs);
      if AsPacket(i).Some? {
        TakenIsAccepted(c, s, key, bytes, at);
      } else {
        assert Taken(c, s, key, bytes, at) == s;
      }
    } else {
      assert Taken(c, s, key, bytes, at) == s;
    }
  }

  lemma DispatchShape(hasher: Hasher, s: State, t: State, key: u16, i: Incoming, at: Addr, nowUs: u64)
    requires SameCore(s, t) && HandlePeersOk(t.handlePeers, t.peers) && i.Decoded?
    ensures SameCore(match AsPacket(i) case None => s case Some(p) => Accept(hasher, s, p, at, key, i.sender),
                     Dispatch(hasher, t, key, i, at, nowUs))
  {
    hide Learned, CheckSender, Accept, AsPacket;
    LearnedChange(t, key, i, nowUs);
    var u := Learned(t, key, i, nowUs);
    PeersChangeCore(t, u);
    if AsPacket(i).Some? {
      CheckSenderChange(u, i.sender);
      PeersChangeCore(u, CheckSender(u, i.sender));
      AcceptCore(hasher, s, CheckSender(u, i.sender), AsPacket(i).value, at, key, i.sender);
    }
  }

  lemma TakenIsAccepted(c: Config, s: State, key: u16, bytes: seq<byte>, at: Addr)
    requires var i := ParsePacket(c.inflate, bytes); i.Decoded? && AsPacket(i).Some?
    ensures var i := ParsePacket(c.inflate, bytes);
            Taken(c, s, key, bytes, at) == Accept(c.hasher, s, AsPacket(i).value, at, key, i.sender)
  {
    hide ParsePacket, IdOf, Known, Store, EnqueueBroadcastFrom;
  }

  lemma TakenAt(c: Config, s: State, key: u16, bytes: seq<byte>, at: Addr)
    ensures var t := Taken(c, s, key, bytes, at);
            match NewPacket(c, s, bytes)
            case None => t == s
            case Some(p) =>
              && t.store == s.store[at := p] && t.trace == s.trace && t.sent == Emplace(s.sent, at, key)
              && t.announce == s.announce && t.announceAt == s.announceAt && t.targeted == s.targeted
              && !Known(s, IdOf(c.hasher, p)) && Located(t.messages, t.packets, IdOf(c.hasher, p), at)
              && t.broadcast == Queued(s.broadcast, at, p.ttl)
  {
    hide ParsePacket, IdOf, AsPacket, Emplace;
  }

  lemma SourceRecorded(c: Config, s: State, key: u16, bytes: seq<byte>, at: Addr, nowUs: u64)
    requires Inv(c.hasher, s) && at !in s.store && at in Receive(c, s, key, bytes, at, nowUs).store
    ensures (at, key) in Receive(c, s, key, bytes, at, nowUs).sent
    ensures Receive(c, s, key, bytes, at, nowUs).trace == s.trace
  {
    InvHandlePeers(c.hasher, s);
    ReceiveShape(c, s, key, bytes, at, nowUs);
    TakenAt(c, s, key, bytes, at);
    EmplaceAdds(s.sent, at, key);
    hide Receive, NewPacket, Inv, Taken, Known, Located, IdOf;
  }

  // ---- Deduplication ----

  /** Nothing stored is lost or moved. */
  ghost predicate StoreGrows(s: State, t: State) {
    && (forall a :: a in s.store ==> a in t.store && t.store[a] == s.store[a])
    && (forall m :: m in s.messages ==> m in t.messages && t.messages[m] == s.messages[m])
    && (forall h :: h in s.packets ==> h in t.packets && t.packets[h] == s.packets[h])
  }

  lemma StepStoreGrows(c: Config, s: State, e: Event)
    requires Inv(c.hasher, s) && Allowed(s, e) && !e.CleaningUp?
    ensures StoreGrows(s, Step(c, s, e))
  {
    hide Receive, Originate, AnnounceAll, SendPackets, Inv, Cleanup;
    match e {
      case Received(key, bytes, at, nowUs) =>
        ReceiveStoreGrows(c, s, key, bytes, at, nowUs);
      case Originated(packet, at) => OriginateStoreGrows(c.hasher, s, packet, at);
      case Announcing(nowUs) => AnnounceAllExact(c, s, nowUs);
      case Sending => SendPacketsKeeps(c.hasher, s);
      case _ =>
    }
  }

  lemma OriginateStoreGrows(hasher: Hasher, s: State, p: Packet, at: Addr)
    requires at !in s.store
    ensures StoreGrows(s, Originate(hasher, s, p, at))
  {
    hide IdOf;
  }

  lemma ReceiveStoreGrows(c: Config, s: State, key: u16, bytes: seq<byte>, at: Addr, nowUs: u64)
    requires Inv(c.hasher, s) && at !in s.store
    ensures StoreGrows(s, Receive(c, s, key, bytes, at, nowUs))
  {
    hide Receive, Inv, StoreGrows, Taken, NewPacket, Store, IdOf;
    InvHandlePeers(c.hasher, s);
    ReceiveShape(c, s, key, bytes, at, nowUs);
    TakenStoreGrows(c, s, key, bytes, at);
    SameStoreGrows(s, Taken(c, s, key, bytes, at), Receive(c, s, key, bytes, at, nowUs));
  }

  lemma SameStoreGrows(s: State, t: State, u: State)
    requires StoreGrows(s, t) && SameCore(t, u)
    ensures StoreGrows(s, u)
  {
  }

  lemma TakenStoreGrows(c: Config, s: State, key: u16, bytes: seq<byte>, at: Addr)
    requires at !in s.store
    ensures StoreGrows(s, Taken(c, s, key, bytes, at))
  {
    hide NewPacket, IdOf, Emplace;
    if NewPacket(c, s, bytes).Some? {
      NewIsUnknown(c, s, bytes);
    }
  }

  lemma NewIsUnknown(c: Config, s: State, bytes: seq<byte>)
    requires NewPacket(c, s, bytes).Some?
    ensures !Known(s, IdOf(c.hasher, NewPacket(c, s, bytes).value))
  {
  }

  lemma InvHandlePeers(hasher: Hasher, s: State)
    requires Inv(hasher, s)
    ensures HandlePeersOk(s.handlePeers, s.peers)
  {
  }

  /** Some cleanup during the run found the packet more than ten minutes old, by its timestamp over a thousand. */
  ghost predicate Expired(c: Config, s: State, events: seq<Event>, p: Packet) {
    exists i :: 0 <= i < |events| && ExpiresAt(c, s, events, p, i)
  }

  predicate ExpiresAt(c: Config, s: State, events: seq<Event>, p: Packet, i: nat)
    requires i < |events|
  {
    events[i].CleaningUp? && PacketOld(p, TimeMs(Run(c, s, events[..i]).offset, events[i].nowUs))
  }

  lemma ExpiredLater(c: Config, s: State, events: seq<Event>, p: Packet)
    requires events != [] && Expired(c, s, events[..|events| - 1], p)
    ensures Expired(c, s, events, p)
  {
    var before := events[..|events| - 1];
    var i :| 0 <= i < |before| && ExpiresAt(c, s, before, p, i);
    assert before[..i] == events[..i];
    assert ExpiresAt(c, s, events, p, i);
  }

  /** Deduplication: a stored packet stays where it is, and its id known, until a cleanup finds it old. */
  lemma {:induction false} StaysKnown(c: Config, s: State, events: seq<Event>, at: Addr)
    requires Inv(c.hasher, s) && AllowedRun(c, s, events) && at in s.store
    ensures var t, id := Run(c, s, events), IdOf(c.hasher, s.store[at]);
            || Expired(c, s, events, s.store[at])
            || (at in t.store && t.store[at] == s.store[at] && Located(t.messages, t.packets, id, at) && Known(t, id))
  {
    hide Step, PacketOld;
    var id := IdOf(c.hasher, s.store[at]);
    if events == [] {
      assert Located(s.messages, s.packets, id, at);
    } else {
      var before, last := events[..|events| - 1], events[|events| - 1];
      AllowedPrefix(c, s, events);
      StaysKnown(c, s, before, at);
      if Expired(c, s, before, s.store[at]) {
        ExpiredLater(c, s, events, s.store[at]);
      } else {
        RunKeeps(c, s, before);
        if last.CleaningUp? && PacketOld(s.store[at], TimeMs(Run(c, s, before).offset, last.nowUs)) {
          assert ExpiresAt(c, s, events, s.store[at], |events| - 1);
        } else {
          StaysOneStep(c, Run(c, s, before), last, at);
        }
      }
    }
  }

  lemma StaysOneStep(c: Config, s: State, e: Event, at: Addr)
    requires Inv(c.hasher, s) && Allowed(s, e) && at in s.store
    requires e.CleaningUp? ==> !PacketOld(s.store[at], TimeMs(s.offset, e.nowUs))
    ensures var t, id := Step(c, s, e), IdOf(c.hasher, s.store[at]);
            at in t.store && t.store[at] == s.store[at] && Located(t.messages, t.packets, id, at)
  {
    assert Located(s.messages, s.packets, IdOf(c.hasher, s.store[at]), at);
    hide IdOf, Old, Receive, Originate, AnnounceAll, SendPackets, Connect, Disconnect, SetLink, Inv;
    if !e.CleaningUp? {
      StepStoreGrows(c, s, e);
    } else {
      CleanupStays(c.hasher, s, e.nowUs, e.leftover, at);
    }
  }

  lemma CleanupStays(hasher: Hasher, s: State, nowUs: u64, leftover: Leftover, at: Addr)
    requires at in s.store && Located(s.messages, s.packets, IdOf(hasher, s.store[at]), at)
    requires !PacketOld(s.store[at], TimeMs(s.offset, nowUs))
    ensures var t, id := Cleanup(s, nowUs, leftover), IdOf(hasher, s.store[at]);
            at in t.store && t.store[at] == s.store[at] && Located(t.messages, t.packets, id, at)
  {
    hide IdOf, Old;
  }

  /** Packets that differ only in time to live or signature have the same id. */
  lemma SameId(hasher: Hasher, p: Packet, ttl: byte, signature: seq<byte>)
    ensures IdOf(hasher, p.(ttl := ttl, signature := signature)) == IdOf(hasher, p)
  {
    if p.body.Raw? {
      assert HashedMeta(p.(ttl := ttl, signature := signature)) == HashedMeta(p);
    }
  }

  /** A packet with the id of a stored one is accepted again only after a cleanup that found the stored one old. */
  lemma AcceptedTwice(c: Config, s: State, events: seq<Event>, at: Addr, bytes: seq<byte>)
    requires Inv(c.hasher, s) && AllowedRun(c, s, events) && at in s.store
    requires var t := Run(c, s, events);
             NewPacket(c, t, bytes).Some? && IdOf(c.hasher, NewPacket(c, t, bytes).value) == IdOf(c.hasher, s.store[at])
    ensures Expired(c, s, events, s.store[at])
  {
    StaysKnown(c, s, events, at);
    hide IdOf, Expired, Run;
  }

  /** The window is exact: a cleanup forgets the id of a stored packet iff it finds that packet old, and then, and only
      then, a packet with that id is accepted again. */
  lemma ForgetsIff(c: Config, s: State, at: Addr, nowUs: u64, leftover: Leftover, bytes: seq<byte>)
    requires Inv(c.hasher, s) && at in s.store
    ensures var t, id := Cleanup(s, nowUs, leftover), IdOf(c.hasher, s.store[at]);
            var stale := PacketOld(s.store[at], TimeMs(s.offset, nowUs));
            && (Known(t, id) <==> !stale)
            && (Carries(c, bytes, id) ==> (NewPacket(c, t, bytes).Some? <==> stale))
  {
    var id := IdOf(c.hasher, s.store[at]);
    assert Located(s.messages, s.packets, id, at);
    hide IdOf, Old, ParsePacket, AsPacket, Inv;
  }

  /** The bytes decode to a packet with this id that would be stored if it were new. */
  predicate Carries(c: Config, bytes: seq<byte>, id: PacketId) {
    var i := ParsePacket(c.inflate, bytes);
    i.Decoded? && AsPacket(i).Some? && IdOf(c.hasher, AsPacket(i).value) == id
  }

  // ---- The connection table ----

  lemma AcceptConnections(hasher: Hasher, s: State, p: Packet, at: Addr, key: u16, peer: u64)
    ensures Accept(hasher, s, p, at, key, peer).connections == s.connections
    ensures Accept(hasher, s, p, at, key, peer).neighbours == s.neighbours
  {
    hide IdOf, Known;
  }

  /** Receiving touches the tables of connections only to look up the one the packet came in on. */
  lemma ReceiveConnections(c: Config, s: State, key: u16, bytes: seq<byte>, at: Addr, nowUs: u64)
    requires HandlePeersOk(s.handlePeers, s.peers)
    ensures Receive(c, s, key, bytes, at, nowUs).connections == ConnectionFor(s, key).connections
    ensures Receive(c, s, key, bytes, at, nowUs).neighbours == s.neighbours
  {
    hide ParsePacket, AsPacket, Learned, CheckSender, Accept;
    var i, u := ParsePacket(c.inflate, bytes), ConnectionFor(s, key);
    if i.Decoded? {
      var t := Learned(u, key, i, nowUs);
      LearnedChange(u, key, i, nowUs);
      CheckSenderChange(t, i.sender);
      if AsPacket(i).Some? {
        AcceptConnections(c.hasher, CheckSender(t, i.sender), AsPacket(i).value, at, key, i.sender);
      }
    }
  }

  // ---- Exactly what is stored, recorded and queued ----

  /** A packet taken in is stored, recorded as sent to where it came from and to its sender, and queued if it may travel. */
  ghost predicate TakenIn(s: State, t: State, p: Packet, at: Addr, key: u16) {
    && t.store == s.store[at := p] && t.trace == s.trace && t.targeted == s.targeted && t.announce == s.announce
    && (forall r :: r in t.sent <==> r in s.sent || r == (at, key))
    && (forall r :: r in t.sentPeers <==> r in s.sentPeers || r == (at, p.sender))
    && t.broadcast == if p.ttl > 0 then s.broadcast + [at] else s.broadcast
  }

  /** Receiving takes in the packet that the bytes carry exactly when its id is not known; otherwise everything but the
      peers, the clock and the table of connections stays. */
  lemma ReceiveExact(c: Config, s: State, key: u16, bytes: seq<byte>, at: Addr, nowUs: u64)
    requires HandlePeersOk(s.handlePeers, s.peers)
    ensures var i, t := ParsePacket(c.inflate, bytes), Receive(c, s, key, bytes, at, nowUs);
            if i.Decoded? && AsPacket(i).Some? && !Known(s, IdOf(c.hasher, AsPacket(i).value)) then
              TakenIn(s, t, AsPacket(i).value, at, key) && Located(t.messages, t.packets, IdOf(c.hasher, AsPacket(i).value), at)
            else SameCore(s, t)
  {
    hide ParsePacket, AsPacket, IdOf, Known, Receive, Located;
    ReceiveShape(c, s, key, bytes, at, nowUs);
    TakenAt(c, s, key, bytes, at);
    EmplaceAdds(s.sent, at, key);
    TakenPeers(c, s, key, bytes, at);
  }

  lemma TakenPeers(c: Config, s: State, key: u16, bytes: seq<byte>, at: Addr)
    ensures match NewPacket(c, s, bytes)
            case None => true
            case Some(p) =>
              forall r :: r in Taken(c, s, key, bytes, at).sentPeers <==> r in s.sentPeers || r == (at, p.sender)
  {
    hide ParsePacket, AsPacket, IdOf, Known, Emplace;
    if NewPacket(c, s, bytes).Some? {
      EmplaceAdds(s.sentPeers, at, NewPacket(c, s, bytes).value.sender);
    }
  }

  /** A message of the node's own is stored and queued, and nothing is recorded of it. */
  lemma OriginateExact(hasher: Hasher, s: State, p: Packet, at: Addr)
    ensures var t := Originate(hasher, s, p, at);
            if Known(s, IdOf(hasher, p)) then t == s
            else
              && t == s.(messages := t.messages, packets := t.packets, store := s.store[at := p], broadcast := t.broadcast)
              && Located(t.messages, t.packets, IdOf(hasher, p), at)
              && t.broadcast == if p.ttl > 0 then s.broadcast + [at] else s.broadcast
  {
    hide IdOf;
  }
}
