/** What runs teach a repeater about its peers. */
module PeerRuns {
  import opened Bytes
  import opened Packets
  import opened ProtocolParser
  import opened Relay
  import opened Clock
  import opened TrackerModel
  import opened Invariants
  import opened Sending
  import opened Runs

  /** The sender and time to live of an announce, when the event delivers one. */
  function Announced(c: Config, e: Event): Option<(u64, byte)> {
    if !e.Received? then None
    else
      var i := ParsePacket(c.inflate, e.bytes);
      if i.Decoded? && i.packetType == TYPE_ANNOUNCE then Some((i.sender, i.ttl)) else None
  }

  /** The greatest time to live among the announces from `id`, zero if there were none. */
  function GreatestTtl(c: Config, events: seq<Event>, id: u64): byte {
    if events == [] then 0
    else
      var before := GreatestTtl(c, events[..|events| - 1], id);
      match Announced(c, events[|events| - 1])
      case Some((sender, ttl)) => if sender == id && ttl > before then ttl else before
      case None => before
  }

  function TtlOf(s: State, id: u64): byte {
    PeerAt(s.peers, id).announceTtl
  }

  /** The connection an event makes a peer reachable by: its stored handle and the peer. */
  function Reaches(c: Config, s: State, e: Event): Option<(u16, u64)> {
    var (sender, ttl) :- Announced(c, e);
    if ttl >= TtlOf(s, sender) then Some((HandleAt(ConnectionFor(s, e.key), e.key), sender)) else None
  }

  lemma CheckSenderTtl(s: State, id: u64)
    ensures forall x :: TtlOf(CheckSender(s, id), x) == TtlOf(s, x)
    ensures CheckSender(s, id).handlePeers == s.handlePeers && CheckSender(s, id).connections == s.connections
  {
  }

  lemma NamePeerTtl(s: State, id: u64, name: seq<byte>, ttl: byte, key: u16, x: u64)
    ensures var t := NamePeer(s, id, name, ttl, key);
            && TtlOf(t, x) == (if id == x && ttl > TtlOf(s, x) then ttl else TtlOf(s, x))
            && t.handlePeers == if ttl >= TtlOf(s, id) then s.handlePeers[HandleAt(s, key) := id] else s.handlePeers
  {
  }

  /** What learning from a packet does to the peers and to who is reached where. */
  lemma LearnedPeers(s: State, key: u16, i: Incoming, nowUs: u64, id: u64)
    requires i.Decoded?
    ensures var t := Learned(s, key, i, nowUs);
            && TtlOf(t, id) == (if i.packetType == TYPE_ANNOUNCE && i.sender == id && i.ttl > TtlOf(s, id) then i.ttl else TtlOf(s, id))
            && t.handlePeers == if i.packetType == TYPE_ANNOUNCE && i.ttl >= TtlOf(s, i.sender)
                                then s.handlePeers[HandleAt(s, key) := i.sender] else s.handlePeers
  {
    hide PeerSeen, Learn, CheckSender, NamePeer;
    CheckSenderTtl(s, i.sender);
    if i.packetType == TYPE_MESSAGE && PeerSeen(i.payload).Some? {
      CheckSenderTtl(CheckSender(s, i.sender), PeerSeen(i.payload).value);
    }
    if i.packetType == TYPE_NOISE_IDENTITY {
      PublicKeyTtl(s, i.sender, i.payload, id);
    }
    NamePeerTtl(s, i.sender, i.payload, i.ttl, key, id);
  }

  lemma PublicKeyTtl(s: State, id: u64, key: seq<byte>, x: u64)
    ensures TtlOf(SetPublicKey(s, id, key), x) == TtlOf(s, x)
    ensures SetPublicKey(s, id, key).handlePeers == s.handlePeers
  {
  }

  lemma AcceptPeers(hasher: Hasher, s: State, p: Packet, at: Addr, key: u16, peer: u64)
    ensures var t := Accept(hasher, s, p, at, key, peer);
            t.peers == s.peers && t.handlePeers == s.handlePeers
  {
    hide IdOf, Known;
  }

  lemma SameTtl(s: State, t: State)
    requires t.peers == s.peers
    ensures forall x :: TtlOf(t, x) == TtlOf(s, x)
  {
  }

  lemma ReceiveTtl(c: Config, s: State, e: Event, id: u64)
    requires e.Received?
    ensures TtlOf(Step(c, s, e), id) ==
            match Announced(c, e)
            case Some((sender, ttl)) => if sender == id && ttl > TtlOf(s, id) then ttl else TtlOf(s, id)
            case None => TtlOf(s, id)
  {
    var t := ConnectionFor(s, e.key);
    SameTtl(s, t);
    assert Step(c, s, e) == Receive(c, s, e.key, e.bytes, e.at, e.nowUs);
    hide ParsePacket, Learned, ConnectionFor, Dispatch, Step, TtlOf;
    var i := ParsePacket(c.inflate, e.bytes);
    if i.Decoded? {
      LearnedPeers(t, e.key, i, e.nowUs, id);
      DispatchPeers(c.hasher, t, e.key, i, e.at, e.nowUs, id);
    }
  }

  lemma ReceiveHandles(c: Config, s: State, e: Event)
    requires e.Received?
    ensures Step(c, s, e).handlePeers ==
            match Reaches(c, s, e)
            case Some((h, sender)) => s.handlePeers[h := sender]
            case None => s.handlePeers
  {
    var t := ConnectionFor(s, e.key);
    SameTtl(s, t);
    assert t.handlePeers == s.handlePeers;
    assert Step(c, s, e) == Receive(c, s, e.key, e.bytes, e.at, e.nowUs);
    hide ParsePacket, Learned, ConnectionFor, HandleAt, Dispatch, Step, TtlOf;
    var i := ParsePacket(c.inflate, e.bytes);
    if i.Decoded? {
      LearnedPeers(t, e.key, i, e.nowUs, 0);
      DispatchPeers(c.hasher, t, e.key, i, e.at, e.nowUs, 0);
    }
  }

  lemma DispatchPeers(hasher: Hasher, s: State, key: u16, i: Incoming, at: Addr, nowUs: u64, id: u64)
    requires i.Decoded?
    ensures var t, u := Dispatch(hasher, s, key, i, at, nowUs), Learned(s, key, i, nowUs);
            TtlOf(t, id) == TtlOf(u, id) && t.handlePeers == u.handlePeers
  {
    hide Learned, AsPacket, Accept, CheckSender;
    var u := Learned(s, key, i, nowUs);
    if AsPacket(i).Some? {
      CheckSenderTtl(u, i.sender);
      AcceptPeers(hasher, CheckSender(u, i.sender), AsPacket(i).value, at, key, i.sender);
    }
  }

  lemma OtherPeers(c: Config, s: State, e: Event)
    requires Inv(c.hasher, s) && !e.Received?
    ensures Step(c, s, e).peers == s.peers
    ensures Step(c, s, e).handlePeers == if e.Disconnected? then s.handlePeers - {e.key} else s.handlePeers
  {
    hide Inv, AnnounceAll, SendPackets, IdOf;
    if e.Announcing? {
      AnnounceAllExact(c, s, e.nowUs);
    } else if e.Sending? {
      SendPacketsKeeps(c.hasher, s);
    }
  }

  /** Over every run from a state without peers, a peer's announce time to live is the greatest it ever announced with. */
  lemma {:induction false} GreatestTtlKept(c: Config, s: State, events: seq<Event>, id: u64)
    requires Inv(c.hasher, s) && s.peers == map[] && AllowedRun(c, s, events)
    ensures TtlOf(Run(c, s, events), id) == GreatestTtl(c, events, id)
  {
    if events != [] {
      var before, last := events[..|events| - 1], events[|events| - 1];
      AllowedPrefix(c, s, events);
      GreatestTtlKept(c, s, before, id);
      RunKeeps(c, s, before);
      hide Step, Announced;
      if last.Received? {
        ReceiveTtl(c, Run(c, s, before), last, id);
      } else {
        OtherPeers(c, Run(c, s, before), last);
        assert Announced(c, last) == None by { NotAnnounced(c, last); }
      }
    }
  }

  lemma NotAnnounced(c: Config, e: Event)
    requires !e.Received?
    ensures Announced(c, e) == None
  {
  }

  /** Event `i` was the last to change who is reached over handle `h`, and made it `id`. */
  ghost predicate LastSet(c: Config, s: State, events: seq<Event>, h: u16, id: u64, i: nat)
    requires i < |events|
  {
    && Reaches(c, Run(c, s, events[..i]), events[i]) == Some((h, id))
    && forall j :: i < j < |events| ==> !Changes(c, Run(c, s, events[..j]), events[j], h)
  }

  predicate Changes(c: Config, s: State, e: Event, h: u16) {
    || (e.Disconnected? && e.key == h)
    || (Reaches(c, s, e).Some? && Reaches(c, s, e).value.0 == h)
  }

  lemma LastSetLater(c: Config, s: State, events: seq<Event>, h: u16, id: u64, i: nat)
    requires events != [] && i < |events| - 1 && LastSet(c, s, events[..|events| - 1], h, id, i)
    requires !Changes(c, Run(c, s, events[..|events| - 1]), events[|events| - 1], h)
    ensures LastSet(c, s, events, h, id, i)
  {
    hide Changes, Reaches, Run;
    var before := events[..|events| - 1];
    assert before[..i] == events[..i];
    forall j | i < j < |events| ensures !Changes(c, Run(c, s, events[..j]), events[j], h) {
      if j < |before| {
        assert before[..j] == events[..j] && before[j] == events[j];
      }
    }
  }

  /** Every entry of the handle table was last set by an announce received on a connection with that handle, whose
      time to live was at least that of every earlier announce from the same peer. */
  lemma {:induction false} ReachedByBest(c: Config, s: State, events: seq<Event>, h: u16) returns (i: nat)
    requires Inv(c.hasher, s) && s.peers == map[] && AllowedRun(c, s, events)
    requires h in Run(c, s, events).handlePeers
    ensures i < |events| && LastSet(c, s, events, h, Run(c, s, events).handlePeers[h], i)
    ensures Announced(c, events[i]).Some?
    ensures var (sender, ttl) := Announced(c, events[i]).value;
            sender == Run(c, s, events).handlePeers[h] && ttl >= GreatestTtl(c, events[..i], sender)
  {
    hide Inv, Step, Announced;
    NoHandlesYet(c.hasher, s);
    if events == [] {
      assert false;
    }
    var before, last := events[..|events| - 1], events[|events| - 1];
    var t := Run(c, s, before);
    AllowedPrefix(c, s, events);
    RunKeeps(c, s, before);
    HandleStep(c, t, last, h);
    if Changes(c, t, last, h) {
      i := |events| - 1;
      GreatestTtlKept(c, s, before, Reaches(c, t, last).value.1);
      assert LastSet(c, s, events, h, Run(c, s, events).handlePeers[h], i);
    } else {
      i := ReachedByBest(c, s, before, h);
      LastSetLater(c, s, events, h, t.handlePeers[h], i);
      assert before[..i] == events[..i];
    }
  }

  lemma NoHandlesYet(hasher: Hasher, s: State)
    requires Inv(hasher, s) && s.peers == map[]
    ensures s.handlePeers == map[]
  {
    assert forall k :: k !in s.handlePeers;
  }

  lemma HandleStep(c: Config, s: State, e: Event, h: u16)
    requires Inv(c.hasher, s) && h in Step(c, s, e).handlePeers
    ensures Changes(c, s, e, h) ==> Reaches(c, s, e) == Some((h, Step(c, s, e).handlePeers[h]))
    ensures !Changes(c, s, e, h) ==> h in s.handlePeers && s.handlePeers[h] == Step(c, s, e).handlePeers[h]
  {
    hide Step, Announced, Inv;
    if e.Received? {
      ReceiveHandles(c, s, e);
    } else {
      OtherPeers(c, s, e);
      NotAnnounced(c, e);
    }
  }

  // ---- Everything that is known of a peer ----

  /** What the event teaches about the peer `id`: an announce (type 1) its name and a time to live, an identity announce
      (type 0x13) its public key. */
  function Taught(c: Config, e: Event, id: u64, known: Peer): Peer {
    if !e.Received? then known
    else
      var i := ParsePacket(c.inflate, e.bytes);
      if !i.Decoded? || i.sender != id then known
      else if i.packetType == 0x01 then
        known.(name := i.payload, announceTtl := if i.ttl > known.announceTtl then i.ttl else known.announceTtl)
      else if i.packetType == 0x13 then known.(publicKey := i.payload)
      else known
  }

  /** The event makes the peer `id` known: as the sender of an announce, an identity announce, a message or a packet that is
      relayed, or as the peer a message names as its sender, even if the message turns out to be corrupted further on. */
  predicate Mentions(c: Config, e: Event, id: u64) {
    e.Received? &&
    var i := ParsePacket(c.inflate, e.bytes);
    i.Decoded? &&
    ( || (i.sender == id && (i.packetType in {0x01, 0x04, 0x13} || AsPacket(i).Some?))
      || (i.packetType == 0x04 && ParseHead(i.payload).Some? && ParseHead(i.payload).value.0.senderPeer == Some(id)))
  }

  lemma CheckSenderPeer(s: State, sender: u64, id: u64)
    ensures PeerAt(CheckSender(s, sender).peers, id) == PeerAt(s.peers, id)
    ensures id in CheckSender(s, sender).peers <==> id in s.peers || id == sender
  {
  }

  lemma LearnedPeer(c: Config, s: State, e: Event, id: u64)
    requires e.Received? && ParsePacket(c.inflate, e.bytes).Decoded?
    ensures var i := ParsePacket(c.inflate, e.bytes);
            PeerAt(Learned(s, e.key, i, e.nowUs).peers, id) == Taught(c, e, id, PeerAt(s.peers, id))
  {
    hide ParsePacket, Learn, CheckSender, NamePeer, SetPublicKey, PeerSeen, PeerAt;
    var i := ParsePacket(c.inflate, e.bytes);
    if i.packetType == TYPE_MESSAGE {
      CheckSenderPeer(s, i.sender, id);
      if PeerSeen(i.payload).Some? {
        CheckSenderPeer(CheckSender(s, i.sender), PeerSeen(i.payload).value, id);
      }
    }
    NamedPeer(s, i.sender, i.payload, i.ttl, e.key, id);
    KeyedPeer(s, i.sender, i.payload, id);
  }

  lemma NamedPeer(s: State, sender: u64, name: seq<byte>, ttl: byte, key: u16, id: u64)
    ensures var known := PeerAt(s.peers, id);
            PeerAt(NamePeer(s, sender, name, ttl, key).peers, id) ==
            if id == sender then known.(name := name, announceTtl := if ttl > known.announceTtl then ttl else known.announceTtl)
            else known
  {
  }

  lemma KeyedPeer(s: State, sender: u64, key: seq<byte>, id: u64)
    ensures var known := PeerAt(s.peers, id);
            PeerAt(SetPublicKey(s, sender, key).peers, id) == if id == sender then known.(publicKey := key) else known
  {
  }

  /** The peers that learning from a packet makes known. */
  lemma LearnedMentions(s: State, key: u16, i: Incoming, nowUs: u64, id: u64)
    requires i.Decoded?
    ensures id in Learned(s, key, i, nowUs).peers <==>
            || id in s.peers
            || (i.sender == id && i.packetType in {0x01, 0x04, 0x13})
            || (i.packetType == 0x04 && PeerSeen(i.payload) == Some(id))
  {
    hide Learn, CheckSender, HandleAt, PeerSeen;
    if i.packetType == TYPE_MESSAGE {
      CheckSenderPeer(s, i.sender, id);
      if PeerSeen(i.payload).Some? {
        CheckSenderPeer(CheckSender(s, i.sender), PeerSeen(i.payload).value, id);
      }
    }
  }

  lemma LearnedKnown(c: Config, s: State, e: Event, id: u64)
    requires e.Received? && ParsePacket(c.inflate, e.bytes).Decoded?
    ensures var i := ParsePacket(c.inflate, e.bytes);
            var t := Learned(s, e.key, i, e.nowUs);
            (if AsPacket(i).Some? then id in CheckSender(t, i.sender).peers else id in t.peers)
            <==> id in s.peers || Mentions(c, e, id)
  {
    hide ParsePacket, Learned, CheckSender, ParseHead, AsPacket;
    var i := ParsePacket(c.inflate, e.bytes);
    LearnedMentions(s, e.key, i, e.nowUs, id);
    CheckSenderPeer(Learned(s, e.key, i, e.nowUs), i.sender, id);
  }

  lemma ReceivePeer(c: Config, s: State, e: Event, id: u64)
    requires e.Received?
    ensures PeerAt(Step(c, s, e).peers, id) == Taught(c, e, id, PeerAt(s.peers, id))
    ensures id in Step(c, s, e).peers <==> id in s.peers || Mentions(c, e, id)
  {
    var t := ConnectionFor(s, e.key);
    assert t.peers == s.peers;
    assert Step(c, s, e) == Receive(c, s, e.key, e.bytes, e.at, e.nowUs);
    hide ParsePacket, Learned, ConnectionFor, Step, Taught, Mentions, CheckSender, Accept, AsPacket, PeerAt;
    var i := ParsePacket(c.inflate, e.bytes);
    if i.Decoded? {
      LearnedPeer(c, t, e, id);
      LearnedKnown(c, t, e, id);
      if AsPacket(i).Some? {
        var u := Learned(t, e.key, i, e.nowUs);
        CheckSenderPeer(u, i.sender, id);
        AcceptPeers(c.hasher, CheckSender(u, i.sender), AsPacket(i).value, e.at, e.key, i.sender);
      }
    } else {
      NothingTaught(c, e, id, PeerAt(s.peers, id));
    }
  }

  lemma NothingTaught(c: Config, e: Event, id: u64, known: Peer)
    requires e.Received? ==> !ParsePacket(c.inflate, e.bytes).Decoded?
    ensures Taught(c, e, id, known) == known && !Mentions(c, e, id)
  {
  }

  /** What the whole run has taught about a peer. */
  function TaughtBy(c: Config, events: seq<Event>, id: u64): Peer {
    if events == [] then Peer(id, [], [], 0)
    else Taught(c, events[|events| - 1], id, TaughtBy(c, events[..|events| - 1], id))
  }

  /** Over every run the table knows of each peer exactly what the packets received from it taught, last name and last key
      included; and it knows exactly the peers that were mentioned. */
  lemma {:induction false} KnowsWhatWasTaught(c: Config, s: State, events: seq<Event>, id: u64)
    requires Inv(c.hasher, s) && s.peers == map[] && AllowedRun(c, s, events)
    ensures PeerAt(Run(c, s, events).peers, id) == TaughtBy(c, events, id)
    ensures id in Run(c, s, events).peers <==> exists i :: 0 <= i < |events| && Mentions(c, events[i], id)
  {
    hide Step, Mentions, Taught, Inv;
    if events != [] {
      var before, last := events[..|events| - 1], events[|events| - 1];
      AllowedPrefix(c, s, events);
      KnowsWhatWasTaught(c, s, before, id);
      RunKeeps(c, s, before);
      if last.Received? {
        ReceivePeer(c, Run(c, s, before), last, id);
      } else {
        OtherPeers(c, Run(c, s, before), last);
        NothingTaught(c, last, id, PeerAt(Run(c, s, before).peers, id));
      }
      assert Run(c, s, events) == Step(c, Run(c, s, before), last);
      assert forall i :: 0 <= i < |before| ==> before[i] == events[i];
    }
  }
}
