/** Exactly what a cleanup keeps. */
module Cleaning {
  import opened Bytes
  import opened Packets
  import opened Clock
  import opened Multimap
  import opened TrackerModel
  import opened Invariants
  import opened Sending
  import opened Runs

  /** The time in milliseconds at which the cleanup happens. */
  function Now(s: State, nowUs: u64): u64 {
    (s.offset + nowUs / 1000) % 0x1_0000_0000_0000_0000
  }

  /** Ten minutes after a thousandth of the packet's timestamp have not passed. */
  predicate Young(p: Packet, now: u64) {
    now <= p.timestamp / 1000 + 600000
  }

  /** The connection is down and was last seen more than ten minutes ago. */
  predicate Unused(c: Connection, now: u64) {
    !c.connected && c.lastSeenUs / 1000 + 600000 < now
  }

  /** Ten minutes after the timestamp as it stands, in 64 bits, have passed. */
  predicate Aged(timestamp: u64, now: u64) {
    (timestamp + 600000) % 0x1_0000_0000_0000_0000 < now
  }

  lemma SameConditions(s: State, nowUs: u64)
    ensures TimeMs(s.offset, nowUs) == Now(s, nowUs)
    ensures forall p: Packet :: PacketOld(p, Now(s, nowUs)) <==> !Young(p, Now(s, nowUs))
    ensures forall c: Connection :: ConnectionOld(c, Now(s, nowUs)) <==> Unused(c, Now(s, nowUs))
    ensures forall timestamp: u64 :: Old(timestamp, Now(s, nowUs)) <==> Aged(timestamp, Now(s, nowUs))
  {
  }

  /** The stored packets, and the queue of those to be sent on, keep exactly what is young, in its order. */
  lemma PacketsCleaned(hasher: Hasher, s: State, nowUs: u64, leftover: Leftover)
    requires Inv(hasher, s)
    ensures var t, now := Cleanup(s, nowUs, leftover), Now(s, nowUs);
            && (forall a :: a in t.store <==> a in s.store && Young(s.store[a], now))
            && (forall a :: a in t.store ==> t.store[a] == s.store[a])
            && (forall a :: a in t.broadcast <==> a in s.broadcast && Young(s.store[a], now))
            && (forall r :: r in t.sentPeers <==> r in s.sentPeers && Young(s.store[r.0], now))
            && SameOrder(t.broadcast, s.broadcast)
  {
    SameConditions(s, nowUs);
    var now := Now(s, nowUs);
    assert BroadcastOk(s.broadcast, s.store) && SentPeersOk(s.sentPeers, s.store, s.peers);
    hide Inv, TimeMs, Young, Old;
    FilterOrder((a: Addr) => !StoredOld(s, a, now, leftover), s.broadcast);
  }

  /** Both tables of connections keep exactly what is in use, unchanged. */
  lemma TablesCleaned(s: State, nowUs: u64, leftover: Leftover)
    ensures var t, now := Cleanup(s, nowUs, leftover), Now(s, nowUs);
            && (forall k :: k in t.connections <==> k in s.connections && !Unused(s.connections[k], now))
            && (forall k :: k in t.connections ==> t.connections[k] == s.connections[k])
            && (forall k :: k in t.neighbours <==> k in s.neighbours && !Unused(s.neighbours[k], now))
            && (forall k :: k in t.neighbours ==> t.neighbours[k] == s.neighbours[k])
  {
    SameConditions(s, nowUs);
    hide TimeMs, Unused, Old, ConnectionOld;
  }

  /** The timestamp found behind a record: of the stored packet, of the announce, or what the freed memory holds. */
  function Behind(s: State, a: Addr, leftover: Leftover): u64 {
    if a in s.store then s.store[a].timestamp else if a == s.announceAt then s.announce.timestamp else leftover(a)
  }

  /** The list of packets sent, and the announces waiting to be sent, keep exactly what has not aged, for connections that
      are in use. */
  lemma RecordsCleaned(hasher: Hasher, s: State, nowUs: u64, leftover: Leftover)
    requires Inv(hasher, s)
    ensures var t, now := Cleanup(s, nowUs, leftover), Now(s, nowUs);
            && (forall r :: r in t.sent <==>
                            r in s.sent && !Aged(Behind(s, r.0, leftover), now) && !Unused(s.connections[r.1], now))
            && (forall e :: e in t.targeted <==>
                            e in s.targeted && !Aged(s.announce.timestamp, now) && !Unused(s.connections[e.1], now))
  {
    SameConditions(s, nowUs);
    NotAnnounce(hasher, s);
    assert SentOk(s.sent, s.connections, s.announceAt) && TargetedOk(s.targeted, s.sent, s.connections, s.announceAt);
    hide Inv, TimeMs, Unused, Old, ConnectionOld, Aged, Sorted;
  }

  /** Nothing else changes. */
  lemma CleanupFrame(s: State, nowUs: u64, leftover: Leftover)
    ensures var t := Cleanup(s, nowUs, leftover);
            && t.peers == s.peers && t.announce == s.announce && t.announceAt == s.announceAt && t.offset == s.offset
            && t.handlePeers == s.handlePeers && t.trace == s.trace
  {
  }

  // ---- The queue over runs ----

  /** The packet's turn has come: the queue is sent while the packet is in it. */
  ghost predicate HadItsTurn(c: Config, s: State, events: seq<Event>, a: Addr) {
    exists i :: 0 <= i < |events| && TurnAt(c, s, events, a, i)
  }

  predicate TurnAt(c: Config, s: State, events: seq<Event>, a: Addr, i: nat)
    requires i < |events|
  {
    events[i].Sending? && a in Run(c, s, events[..i]).broadcast
  }

  lemma TurnLater(c: Config, s: State, events: seq<Event>, a: Addr)
    requires events != [] && HadItsTurn(c, s, events[..|events| - 1], a)
    ensures HadItsTurn(c, s, events, a)
  {
    var before := events[..|events| - 1];
    var i :| 0 <= i < |before| && TurnAt(c, s, before, a, i);
    assert before[..i] == events[..i];
    assert TurnAt(c, s, events, a, i);
  }

  lemma ReceivedStaysQueued(c: Config, s: State, key: u16, bytes: seq<byte>, at: Addr, nowUs: u64, a: Addr)
    requires Inv(c.hasher, s) && a in s.broadcast
    ensures a in Receive(c, s, key, bytes, at, nowUs).broadcast
  {
    hide Inv, Receive, Taken, NewPacket, Known, IdOf, Located, Emplace;
    InvHandlePeers(c.hasher, s);
    ReceiveShape(c, s, key, bytes, at, nowUs);
    TakenAt(c, s, key, bytes, at);
  }

  lemma StaysQueuedOneStep(c: Config, s: State, e: Event, a: Addr)
    requires Inv(c.hasher, s) && Allowed(s, e) && a in s.broadcast && !e.Sending?
    requires e.CleaningUp? ==> Young(s.store[a], Now(s, e.nowUs))
    ensures a in Step(c, s, e).broadcast
  {
    hide Inv, Receive, AnnounceAll, SendPackets, Cleanup, IdOf, Young;
    match e {
      case Received(key, bytes, at, nowUs) => ReceivedStaysQueued(c, s, key, bytes, at, nowUs, a);
      case Announcing(nowUs) => AnnounceAllExact(c, s, nowUs);
      case CleaningUp(nowUs, leftover) => PacketsCleaned(c.hasher, s, nowUs, leftover);
      case _ =>
    }
  }

  /** A queued packet stays queued until the queue is sent or a cleanup finds the packet old. */
  lemma {:induction false} StaysQueued(c: Config, s: State, events: seq<Event>, a: Addr)
    requires Inv(c.hasher, s) && AllowedRun(c, s, events) && a in s.broadcast
    ensures a in s.store
    ensures var t := Run(c, s, events);
            || HadItsTurn(c, s, events, a)
            || Expired(c, s, events, s.store[a])
            || (a in t.broadcast && a in t.store && t.store[a] == s.store[a])
  {
    QueuedIsStored(c.hasher, s, a);
    hide Step, Inv, PacketOld;
    if events != [] {
      var before, last := events[..|events| - 1], events[|events| - 1];
      var t := Run(c, s, before);
      AllowedPrefix(c, s, events);
      StaysQueued(c, s, before, a);
      if HadItsTurn(c, s, before, a) {
        TurnLater(c, s, events, a);
      } else if Expired(c, s, before, s.store[a]) {
        ExpiredLater(c, s, events, s.store[a]);
      } else if last.Sending? {
        assert TurnAt(c, s, events, a, |events| - 1);
      } else if last.CleaningUp? && PacketOld(s.store[a], TimeMs(t.offset, last.nowUs)) {
        assert ExpiresAt(c, s, events, s.store[a], |events| - 1);
      } else {
        RunKeeps(c, s, before);
        SameConditionsAt(t, last, a);
        StaysQueuedOneStep(c, t, last, a);
        StaysOneStep(c, t, last, a);
      }
    }
  }

  lemma QueuedIsStored(hasher: Hasher, s: State, a: Addr)
    requires Inv(hasher, s) && a in s.broadcast
    ensures a in s.store
  {
  }

  lemma SameConditionsAt(s: State, e: Event, a: Addr)
    requires a in s.store && (e.CleaningUp? ==> !PacketOld(s.store[a], TimeMs(s.offset, e.nowUs)))
    ensures e.CleaningUp? ==> Young(s.store[a], Now(s, e.nowUs))
  {
    if e.CleaningUp? {
      SameConditions(s, e.nowUs);
    }
  }
}
