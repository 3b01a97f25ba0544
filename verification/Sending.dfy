/** Exactly which packets a call of sendPackets sends, and to whom. */
module Sending {
  import opened Bytes
  import opened Packets
  import opened Clock
  import opened Multimap
  import opened TrackerModel
  import opened Invariants

  /** The connection is up and its characteristic has been found. */
  predicate Reachable(connections: map<u16, Connection>, key: nat) {
    key < 0x1_0000 && key in connections && connections[key].connected && connections[key].valueHandle > 0
  }

  /** Some connection in this range of keys can be sent to. */
  predicate SomeReachable(connections: map<u16, Connection>, from: nat, to: nat) {
    exists j :: from <= j < to && Reachable(connections, j)
  }

  /** The record was made between the two states. */
  predicate Made(s: State, t: State, r: (Addr, u16)) {
    r in t.sent && r !in s.sent
  }

  // ---- One broadcast packet ----

  /** What decides about connection `k` when the loop is about to look at `key`. */
  predicate Held(s: State, at: Addr, key: nat, k: u16) {
    (HasKey(s.sent, at) || SomeReachable(s.connections, key, k)) && Covered(s, at, k)
  }

  lemma AfterTransmit(hasher: Hasher, s: State, at: Addr, key: u16, k: u16)
    requires Inv(hasher, s) && Reachable(s.connections, key) && Reachable(s.connections, k) && key != k
    ensures var t := Transmit(s, at, key);
            && HasKey(t.sent, at) && (Covered(t, at, k) <==> Covered(s, at, k))
            && ((at, k) in t.sent <==> (at, k) in s.sent)
            && Reachable(t.connections, k) && t.announceAt == s.announceAt
            && t.connections == s.connections
  {
    var t := Transmit(s, at, key);
    EmplaceAdds(s.sent, at, key);
    assert (at, key) in t.sent;
    forall r | r in s.sent ensures r in t.sent && HandleAt(t, r.1) == HandleAt(s, r.1) {
    }
    assert HandleAt(s, key) == key && HandleAt(s, k) == k;
  }

  lemma {:induction false} OnlyLaterKeys(s: State, at: Addr, key: nat)
    requires key <= HANDLES
    ensures forall r :: r in SendBroadcast(s, at, key).sent ==> r in s.sent || (r.0 == at && r.1 >= key)
    ensures forall r :: r in s.sent ==> r in SendBroadcast(s, at, key).sent
    ensures SendBroadcast(s, at, key).connections == s.connections
    decreases HANDLES - key
  {
    hide Blocked, Emplace;
    if key < HANDLES {
      if key in s.connections && Available(s.connections[key]) && !Blocked(s, at, key) {
        EmplaceAdds(s.sent, at, key as u16);
        OnlyLaterKeys(Transmit(s, at, key), at, key + 1);
      } else {
        OnlyLaterKeys(s, at, key + 1);
      }
    }
  }

  lemma CoveredGrows(s: State, t: State, at: Addr, k: u16)
    requires Covered(s, at, k) && t.connections == s.connections && forall r :: r in s.sent ==> r in t.sent
    ensures Covered(t, at, k)
  {
    var r :| r in s.sent && r.0 >= at && HandleAt(s, r.1) == HandleAt(s, k);
    assert r in t.sent && HandleAt(t, r.1) == HandleAt(t, k);
  }

  lemma CoveredBySelf(s: State, at: Addr, k: u16)
    requires (at, k) in s.sent
    ensures Covered(s, at, k) && HasKey(s.sent, at)
  {
    assert HandleAt(s, (at, k).1) == HandleAt(s, k);
  }

  lemma StepRange(connections: map<u16, Connection>, key: nat, k: nat)
    requires key < k
    ensures SomeReachable(connections, key, k) <==> Reachable(connections, key) || SomeReachable(connections, key + 1, k)
  {
  }

  /** The loop sends the packet to a reachable connection exactly when it is not held back, and leaves it covered. */
  lemma {:induction false} BroadcastExact(hasher: Hasher, s: State, at: Addr, key: nat, k: u16)
    requires Inv(hasher, s) && at != s.announceAt && key <= k && Reachable(s.connections, k)
    ensures Made(s, SendBroadcast(s, at, key), (at, k)) <==> !Held(s, at, key, k)
    ensures Covered(SendBroadcast(s, at, key), at, k) && HasKey(SendBroadcast(s, at, key).sent, at)
    decreases HANDLES - key
  {
    hide Inv, Covered, HasKey, SomeReachable, Transmit;
    if key == k {
      ReachesHere(hasher, s, at, k);
    } else if Reachable(s.connections, key) && !Blocked(s, at, key) {
      var u := Transmit(s, at, key);
      TransmitBroadcast(hasher, s, at, key);
      AfterTransmit(hasher, s, at, key, k);
      BroadcastExact(hasher, u, at, key + 1, k);
      StepRange(s.connections, key, k);
    } else {
      BroadcastExact(hasher, s, at, key + 1, k);
      StepRange(s.connections, key, k);
    }
  }

  lemma ReachesHere(hasher: Hasher, s: State, at: Addr, k: u16)
    requires Inv(hasher, s) && at != s.announceAt && Reachable(s.connections, k)
    ensures Made(s, SendBroadcast(s, at, k), (at, k)) <==> !Held(s, at, k, k)
    ensures Covered(SendBroadcast(s, at, k), at, k) && HasKey(SendBroadcast(s, at, k).sent, at)
  {
    hide Inv;
    var t := SendBroadcast(s, at, k);
    assert !SomeReachable(s.connections, k, k);
    OnlyLaterKeys(s, at, k);
    if Blocked(s, at, k) {
      OnlyLaterKeys(s, at, k + 1);
      CoveredGrows(s, t, at, k);
      var r :| r in s.sent && r.0 == at;
      assert r in t.sent;
    } else {
      var u := Transmit(s, at, k);
      EmplaceAdds(s.sent, at, k);
      if (at, k) in s.sent {
        CoveredBySelf(s, at, k);
        assert false;
      }
      OnlyLaterKeys(u, at, k + 1);
      assert (at, k) in t.sent;
      CoveredBySelf(t, at, k);
    }
  }

  // ---- The broadcast queue ----

  /** What one packet's turn does to another packet `p` and a reachable connection `k`. */
  lemma TurnOfAnother(hasher: Hasher, s: State, q: Addr, p: Addr, k: u16)
    requires Inv(hasher, s) && q != s.announceAt && p != q && Reachable(s.connections, k)
    ensures var t := SendBroadcast(s, q, 0);
            && (HasKey(t.sent, p) <==> HasKey(s.sent, p))
            && ((p, k) in t.sent <==> (p, k) in s.sent)
            && (Covered(t, p, k) <==> Covered(s, p, k) || q > p)
  {
    var t := SendBroadcast(s, q, 0);
    hide Inv, SendBroadcast, Held;
    OnlyLaterKeys(s, q, 0);
    BroadcastExact(hasher, s, q, 0, k);
    if q > p {
      var r :| r in t.sent && r.0 >= q && HandleAt(t, r.1) == HandleAt(t, k);
      assert Covered(t, p, k);
    } else if Covered(t, p, k) {
      var r :| r in t.sent && r.0 >= p && HandleAt(t, r.1) == HandleAt(t, k);
      assert r in s.sent;
    } else if Covered(s, p, k) {
      CoveredGrows(s, t, p, k);
    }
    if HasKey(s.sent, p) {
      var r :| r in s.sent && r.0 == p;
      assert r in t.sent;
    }
  }

  /** Once a packet has a record and the connection is covered, nothing more is sent there. */
  lemma {:induction false} Sealed(hasher: Hasher, s: State, queue: seq<Addr>, p: Addr, k: u16)
    requires Inv(hasher, s) && (forall a :: a in queue ==> a != s.announceAt) && Reachable(s.connections, k)
    requires HasKey(s.sent, p) && Covered(s, p, k)
    ensures (p, k) in SendBroadcasts(s, queue).sent <==> (p, k) in s.sent
    decreases |queue|
  {
    if queue != [] {
      var q := queue[0];
      var t := SendBroadcast(s, q, 0);
      assert q in queue;
      assert forall a :: a in queue[1..] ==> a in queue;
      SendBroadcastKeeps(hasher, s, q, 0);
      assert t.announceAt == s.announceAt && t.connections == s.connections;
      hide Inv, Covered, HasKey, Transmits, SendBroadcast;
      if q == p {
        BroadcastExact(hasher, s, p, 0, k);
        OnlyLaterKeys(s, p, 0);
      } else {
        TurnOfAnother(hasher, s, q, p, k);
      }
      Sealed(hasher, t, queue[1..], p, k);
    }
  }

  /** Some packet that is queued earlier has a higher address. */
  predicate HigherBefore(queue: seq<Addr>, i: nat)
    requires i < |queue|
  {
    exists j :: 0 <= j < i && queue[j] > queue[i]
  }

  lemma {:induction false} BroadcastsExact(hasher: Hasher, s: State, queue: seq<Addr>, i: nat, k: u16)
    requires Inv(hasher, s) && (forall a :: a in queue ==> a != s.announceAt) && Reachable(s.connections, k)
    requires i < |queue| && queue[i] !in queue[..i]
    ensures Made(s, SendBroadcasts(s, queue), (queue[i], k)) <==>
            !((HasKey(s.sent, queue[i]) || SomeReachable(s.connections, 0, k))
              && (Covered(s, queue[i], k) || HigherBefore(queue, i)))
    decreases |queue|
  {
    var q, p := queue[0], queue[i];
    var t := SendBroadcast(s, q, 0);
    assert q in queue && p in queue;
    assert forall a :: a in queue[1..] ==> a in queue;
    SendBroadcastKeeps(hasher, s, q, 0);
    assert t.announceAt == s.announceAt && t.connections == s.connections;
    hide Inv, Covered, HasKey, Transmits, SendBroadcast, SomeReachable;
    if i == 0 {
      BroadcastExact(hasher, s, p, 0, k);
      Sealed(hasher, t, queue[1..], p, k);
      OnlyLaterKeys(s, p, 0);
    } else {
      assert q in queue[..i];
      TurnOfAnother(hasher, s, q, p, k);
      assert queue[1..][..i - 1] == queue[..i][1..];
      BroadcastsExact(hasher, t, queue[1..], i - 1, k);
      HigherStep(queue, i);
    }
  }

  lemma HigherStep(queue: seq<Addr>, i: nat)
    requires 0 < i < |queue|
    ensures HigherBefore(queue, i) <==> queue[0] > queue[i] || HigherBefore(queue[1..], i - 1)
  {
    if HigherBefore(queue, i) {
      var j :| 0 <= j < i && queue[j] > queue[i];
      if j > 0 {
        assert queue[1..][j - 1] == queue[j];
      }
    }
    if HigherBefore(queue[1..], i - 1) {
      var j :| 0 <= j < i - 1 && queue[1..][j] > queue[1..][i - 1];
      assert queue[j + 1] > queue[i];
    }
  }

  // ---- The targeted queue ----

  /** Every targeted announce is recorded, and nothing else is. */
  lemma {:induction false} TargetedExact(hasher: Hasher, s: State, queue: seq<(Addr, u16)>)
    requires Inv(hasher, s.(targeted := []))
    requires forall e :: e in queue ==> e.0 == s.announceAt && e.1 in s.connections && s.connections[e.1].handle == e.1
    ensures forall r :: r in SendTargeted(s, queue).sent <==> r in s.sent || r in queue
    decreases |queue|
  {
    if queue != [] {
      var e := queue[0];
      assert e in queue;
      assert forall r :: r in queue <==> r == e || r in queue[1..];
      if Recorded(s, e.0, e.1) {
        RecordedMeansSent(hasher, s, e);
        TargetedExact(hasher, s, queue[1..]);
      } else {
        TransmitTargeted(hasher, s, e.0, e.1);
        EmplaceAdds(s.sent, e.0, e.1);
        hide Inv, Recorded;
        TargetedExact(hasher, Transmit(s, e.0, e.1), queue[1..]);
      }
    }
  }

  lemma RecordedMeansSent(hasher: Hasher, s: State, e: (Addr, u16))
    requires Inv(hasher, s.(targeted := [])) && e.0 == s.announceAt && e.1 in s.connections && s.connections[e.1].handle == e.1
    requires Recorded(s, e.0, e.1)
    ensures e in s.sent
  {
    var r :| r in s.sent && r.0 == e.0 && HandleAt(s, r.1) == HandleAt(s, e.1);
    assert r == e;
  }

  // ---- A whole call ----

  /** The records after the targeted queue has been sent, as far as a broadcast packet can tell. */
  lemma TargetedPhase(hasher: Hasher, s: State, p: Addr, k: u16)
    requires Inv(hasher, s) && p != s.announceAt && Reachable(s.connections, k)
    ensures var t := DropTargeted(s, SendTargeted(s, s.targeted));
            && Inv(hasher, t) && t == s.(trace := t.trace, sent := t.sent, targeted := [])
            && (HasKey(t.sent, p) <==> HasKey(s.sent, p))
            && ((p, k) in t.sent <==> (p, k) in s.sent)
            && (Covered(t, p, k) <==> Covered(s, p, k) || (s.announceAt > p && (s.announceAt, k) in s.targeted))
  {
    InvWithoutTargeted(hasher, s);
    SendTargetedKeeps(hasher, s, s.targeted);
    TargetedDrains(hasher, s);
    TargetedExact(hasher, s, s.targeted);
    TargetedPhaseCovers(hasher, s, DropTargeted(s, SendTargeted(s, s.targeted)), p, k);
  }

  lemma TargetedPhaseCovers(hasher: Hasher, s: State, t: State, p: Addr, k: u16)
    requires Inv(hasher, s) && p != s.announceAt && Reachable(s.connections, k)
    requires t.connections == s.connections && forall r :: r in t.sent <==> r in s.sent || r in s.targeted
    ensures HasKey(t.sent, p) <==> HasKey(s.sent, p)
    ensures (p, k) in t.sent <==> (p, k) in s.sent
    ensures Covered(t, p, k) <==> Covered(s, p, k) || (s.announceAt > p && (s.announceAt, k) in s.targeted)
  {
    if HasKey(s.sent, p) {
      var r :| r in s.sent && r.0 == p;
      assert r in t.sent;
    }
    if s.announceAt > p && (s.announceAt, k) in s.targeted {
      assert (s.announceAt, k) in t.sent;
      assert HandleAt(t, (s.announceAt, k).1) == HandleAt(t, k);
    } else if Covered(s, p, k) {
      CoveredGrows(s, t, p, k);
    } else {
      forall r | r in t.sent && r.0 >= p ensures HandleAt(t, r.1) != HandleAt(t, k) {
        if r in s.targeted {
          assert r.0 == s.announceAt && HandleAt(t, r.1) == r.1;
        }
      }
    }
  }

  /** Something that sendPackets treats as proof that connection `k` need not get the packet queued at `i`: a record
      of this packet or of one at a higher address; an announce, at a higher address, about to go there; or a packet
      at a higher address queued earlier. */
  predicate CoverFound(s: State, i: nat, k: u16)
    requires i < |s.broadcast|
  {
    || Covered(s, s.broadcast[i], k)
    || (s.announceAt > s.broadcast[i] && (s.announceAt, k) in s.targeted)
    || HigherBefore(s.broadcast, i)
  }

  /** Exactly who gets a queued packet, decided by the state before the call. A packet without any record goes to the
      first reachable connection in any case. */
  lemma CoverageIff(hasher: Hasher, s: State, i: nat, k: u16)
    requires Inv(hasher, s) && i < |s.broadcast| && Reachable(s.connections, k)
    ensures Traced(SendPackets(s).trace, |s.trace|, (s.broadcast[i], k)) <==>
            !((HasKey(s.sent, s.broadcast[i]) || SomeReachable(s.connections, 0, k)) && CoverFound(s, i, k))
  {
    var p := s.broadcast[i];
    NotAnnounce(hasher, s);
    assert p in s.broadcast;
    assert Distinct(s.broadcast);
    TargetedPhase(hasher, s, p, k);
    var t := DropTargeted(s, SendTargeted(s, s.targeted));
    BroadcastsExact(hasher, t, t.broadcast, i, k);
    SendPacketsKeeps(hasher, s);
    TracedIffMade(s, SendPackets(s), (p, k));
  }

  lemma TracedIffMade(s: State, t: State, r: (Addr, u16))
    requires Extends(s, t) && AllTraced(s, t)
    ensures Traced(t.trace, |s.trace|, r) <==> Made(s, t, r)
  {
    if Traced(t.trace, |s.trace|, r) {
      var i :| |s.trace| <= i < |t.trace| && Pair(t.trace[i]) == r;
    }
  }

  /** With nothing recorded or queued at higher addresses, a queued packet goes to exactly the reachable connections
      it has no record for. */
  lemma FullCoverage(hasher: Hasher, s: State, i: nat, k: u16)
    requires Inv(hasher, s) && i < |s.broadcast| && Reachable(s.connections, k)
    requires forall r :: r in s.sent && r.0 > s.broadcast[i] ==> HandleAt(s, r.1) != k
    requires s.announceAt > s.broadcast[i] ==> (s.announceAt, k) !in s.targeted
    requires !HigherBefore(s.broadcast, i)
    ensures Traced(SendPackets(s).trace, |s.trace|, (s.broadcast[i], k)) <==> !Recorded(s, s.broadcast[i], k)
  {
    CoverageIff(hasher, s, i, k);
  }

  /** A relayed packet queued behind one at a higher address is sent to nobody, and leaves the queue all the same. */
  lemma Silenced(hasher: Hasher, s: State, i: nat, k: u16)
    requires Inv(hasher, s) && i < |s.broadcast| && Reachable(s.connections, k)
    requires HasKey(s.sent, s.broadcast[i]) && HigherBefore(s.broadcast, i)
    ensures !Traced(SendPackets(s).trace, |s.trace|, (s.broadcast[i], k)) && SendPackets(s).broadcast == []
  {
    CoverageIff(hasher, s, i, k);
    SendPacketsKeeps(hasher, s);
  }

  lemma {:induction false} AllCovered(hasher: Hasher, s: State, queue: seq<Addr>, p: Addr, k: u16)
    requires Inv(hasher, s) && (forall a :: a in queue ==> a != s.announceAt) && Reachable(s.connections, k)
    requires p in queue || Covered(s, p, k)
    ensures Covered(SendBroadcasts(s, queue), p, k)
    decreases |queue|
  {
    if queue != [] {
      var q := queue[0];
      var t := SendBroadcast(s, q, 0);
      assert q in queue;
      assert forall a :: a in queue <==> a == q || a in queue[1..];
      SendBroadcastKeeps(hasher, s, q, 0);
      assert t.announceAt == s.announceAt && t.connections == s.connections;
      hide Inv, Covered, HasKey, Transmits, SendBroadcast;
      BroadcastExact(hasher, s, q, 0, k);
      if p != q {
        TurnOfAnother(hasher, s, q, p, k);
      }
      AllCovered(hasher, t, queue[1..], p, k);
    }
  }

  /** After a call, each packet that was queued has, for every reachable connection, a record at its own or a higher
      address. */
  lemma CoveredAfter(hasher: Hasher, s: State, p: Addr, k: u16)
    requires Inv(hasher, s) && p in s.broadcast && Reachable(s.connections, k)
    ensures Covered(SendPackets(s), p, k)
  {
    NotAnnounce(hasher, s);
    TargetedPhase(hasher, s, p, k);
    var t := DropTargeted(s, SendTargeted(s, s.targeted));
    AllCovered(hasher, t, t.broadcast, p, k);
    SendBroadcastsKeeps(hasher, t, t.broadcast);
    hide Inv, SendBroadcasts, SendTargeted, DropTargeted;
    CoveredGrows(SendBroadcasts(t, t.broadcast), SendPackets(s), p, k);
  }

  // ---- Announces ----

  /** Announcing to one connection. */
  function AnnounceTo(s: State, key: u16, nowUs: u64): State {
    s.(announce := s.announce.(timestamp := TimeMs(s.offset, nowUs)), targeted := Emplace(s.targeted, s.announceAt, key))
  }

  lemma AnnounceToExact(hasher: Hasher, s: State, key: u16, nowUs: u64)
    requires Inv(hasher, s) && NeedsAnnounce(s, key) && s.announce.ttl > 0
    ensures Inv(hasher, AnnounceTo(s, key, nowUs))
    ensures AnnounceFrom(s, key, nowUs) == AnnounceFrom(AnnounceTo(s, key, nowUs), key + 1, nowUs)
    ensures forall k :: NeedsAnnounce(AnnounceTo(s, key, nowUs), k) <==> NeedsAnnounce(s, k)
  {
    AnnounceOneKeeps(hasher, s, key, nowUs);
    NotAnnounce(hasher, s);
    SameNeeds(s, AnnounceTo(s, key, nowUs));
    var t := s.(announce := s.announce.(timestamp := TimeMs(s.offset, nowUs)));
    assert HandleAt(t, key) == key;
    hide Inv, Recorded;
    assert EnqueueTargeted(t, t.announceAt, key) == AnnounceTo(s, key, nowUs);
  }

  lemma {:induction false} AnnounceExact(hasher: Hasher, s: State, key: nat, nowUs: u64)
    requires Inv(hasher, s) && key <= HANDLES && s.announce.ttl > 0
    ensures var t := AnnounceFrom(s, key, nowUs);
            && t == s.(announce := t.announce, targeted := t.targeted) && t.announce.ttl == s.announce.ttl
            && forall e :: e in t.targeted <==>
                           e in s.targeted || (e.0 == s.announceAt && e.1 >= key && NeedsAnnounce(s, e.1))
    decreases HANDLES - key
  {
    hide Inv, NeedsAnnounce, Emplace;
    if key < HANDLES {
      if NeedsAnnounce(s, key) {
        AnnounceToExact(hasher, s, key, nowUs);
        EmplaceAdds(s.targeted, s.announceAt, key as u16);
        AnnounceExact(hasher, AnnounceTo(s, key, nowUs), key + 1, nowUs);
      } else {
        AnnounceExact(hasher, s, key + 1, nowUs);
      }
    }
  }

  /** Announcing changes nothing of the announce but its timestamp, to the time. */
  lemma {:induction false} AnnounceStamped(s: State, key: nat, nowUs: u64)
    requires key <= HANDLES
    ensures var stamped := s.announce.(timestamp := TimeMs(s.offset, nowUs));
            AnnounceFrom(s, key, nowUs).announce in {s.announce, stamped}
    decreases HANDLES - key
  {
    hide NeedsAnnounce, HandleAt, TimeMs, EnqueueTargeted;
    if key < HANDLES {
      if NeedsAnnounce(s, key) {
        var t := s.(announce := s.announce.(timestamp := TimeMs(s.offset, nowUs)));
        TargetingKeeps(t, t.announceAt, HandleAt(t, key));
        AnnounceStamped(EnqueueTargeted(t, t.announceAt, HandleAt(t, key)), key + 1, nowUs);
      } else {
        AnnounceStamped(s, key + 1, nowUs);
      }
    }
  }

  lemma TargetingKeeps(s: State, at: Addr, key: u16)
    ensures EnqueueTargeted(s, at, key).announce == s.announce && EnqueueTargeted(s, at, key).offset == s.offset
  {
  }

  lemma SameNeeds(s: State, t: State)
    requires t.sent == s.sent && t.connections == s.connections && t.offset == s.offset && t.announceAt == s.announceAt
    ensures forall k :: NeedsAnnounce(t, k) <==> NeedsAnnounce(s, k)
  {
    forall k: u16 ensures Recorded(t, t.announceAt, k) <==> Recorded(s, s.announceAt, k) {
      assert forall r: (Addr, u16) :: HandleAt(t, r.1) == HandleAt(s, r.1);
    }
  }

  /** An announce is due: the connection can be sent to, the clock is past the build time, and no announce went there. */
  predicate AnnounceDue(s: State, key: u16) {
    Reachable(s.connections, key) && s.offset >= 1755685519 && (s.announceAt, key) !in s.sent
  }

  lemma NeedsIfDue(hasher: Hasher, s: State, key: u16)
    requires Inv(hasher, s)
    ensures NeedsAnnounce(s, key) <==> AnnounceDue(s, key)
  {
    if Reachable(s.connections, key) {
      if (s.announceAt, key) in s.sent {
        SentItself(s, s.announceAt, key);
      } else {
        assert forall r :: r in s.sent && r.0 == s.announceAt ==> HandleAt(s, r.1) != HandleAt(s, key);
      }
    }
  }

  /** Announcing targets exactly the connections for which an announce is due. */
  lemma AnnounceAllExact(c: Config, s: State, nowUs: u64)
    requires Inv(c.hasher, s)
    ensures var t := AnnounceAll(c, s, nowUs);
            && Inv(c.hasher, t) && Extends(s, t)
            && t == s.(announce := t.announce, targeted := t.targeted)
            && forall e :: e in t.targeted <==> e in s.targeted || (e.0 == s.announceAt && AnnounceDue(s, e.1))
  {
    hide Inv, Grows, NeedsAnnounce, AnnounceDue, SetupAnnounce, AnnounceFrom;
    forall k: u16 ensures NeedsAnnounce(s, k) <==> AnnounceDue(s, k) {
      NeedsIfDue(c.hasher, s, k);
    }
    var u := SetupAnnounce(c, s);
    SetupKeeps(c, s);
    SameNeeds(s, u);
    AnnounceExact(c.hasher, u, 0, nowUs);
    AnnounceFromKeeps(c.hasher, u, 0, nowUs);
  }

  lemma SetupKeeps(c: Config, s: State)
    requires Inv(c.hasher, s)
    ensures var u := SetupAnnounce(c, s);
            Inv(c.hasher, u) && u == s.(announce := u.announce) && u.announce.ttl == 3
  {
  }

  function AnnounceTimes(c: Config, s: State, times: seq<u64>): State {
    if times == [] then s else AnnounceAll(c, AnnounceTimes(c, s, times[..|times| - 1]), times[|times| - 1])
  }

  lemma {:induction false} AnnounceTimesExact(c: Config, s: State, times: seq<u64>)
    requires Inv(c.hasher, s)
    ensures var t := AnnounceTimes(c, s, times);
            && Inv(c.hasher, t) && t == s.(announce := t.announce, targeted := t.targeted)
            && forall e :: e in t.targeted <==>
                           e in s.targeted || (times != [] && e.0 == s.announceAt && AnnounceDue(s, e.1))
  {
    if times != [] {
      var before := AnnounceTimes(c, s, times[..|times| - 1]);
      AnnounceTimesExact(c, s, times[..|times| - 1]);
      hide Inv, AnnounceAll;
      AnnounceAllExact(c, before, times[|times| - 1]);
    }
  }

  /** However often it announces before it sends, a node sends one announce to each connection that was waiting for one
      or needed one, none elsewhere and none twice; afterwards nothing is queued. */
  lemma AnnouncesOnce(c: Config, s: State, times: seq<u64>, k: u16)
    requires Inv(c.hasher, s) && times != []
    ensures var t := SendPackets(AnnounceTimes(c, s, times));
            && (Traced(t.trace, |s.trace|, (s.announceAt, k)) <==> (s.announceAt, k) in s.targeted || AnnounceDue(s, k))
            && (forall i, j :: |s.trace| <= i < j < |t.trace| ==> Pair(t.trace[i]) != Pair(t.trace[j]))
            && t.targeted == [] && t.broadcast == []
  {
    AnnounceTimesExact(c, s, times);
    var u := AnnounceTimes(c, s, times);
    SendPacketsKeeps(c.hasher, u);
    var t := SendPackets(u);
    TracedIffMade(u, t, (s.announceAt, k));
    AnnouncesMade(c.hasher, u, k);
  }

  // ---- Links that are not ready ----

  lemma {:induction false} OnlyReady(s: State, at: Addr, key: nat)
    requires key <= HANDLES
    ensures forall r :: r in SendBroadcast(s, at, key).sent ==> r in s.sent || Reachable(s.connections, r.1)
    decreases HANDLES - key
  {
    hide Blocked, Emplace;
    if key < HANDLES {
      if key in s.connections && Available(s.connections[key]) && !Blocked(s, at, key) {
        EmplaceAdds(s.sent, at, key as u16);
        OnlyReady(Transmit(s, at, key), at, key + 1);
      } else {
        OnlyReady(s, at, key + 1);
      }
    }
  }

  lemma {:induction false} OnlyReadyAll(s: State, queue: seq<Addr>)
    ensures forall r :: r in SendBroadcasts(s, queue).sent ==> r in s.sent || Reachable(s.connections, r.1)
    decreases |queue|
  {
    if queue != [] {
      OnlyReady(s, queue[0], 0);
      OnlyLaterKeys(s, queue[0], 0);
      OnlyReadyAll(SendBroadcast(s, queue[0], 0), queue[1..]);
    }
  }

  /** A packet other than the announce is neither sent nor recorded where the link is down or its characteristic has not
      been found. */
  lemma NotReady(hasher: Hasher, s: State, a: Addr, k: u16)
    requires Inv(hasher, s) && a != s.announceAt
    requires k !in s.connections || !s.connections[k].connected || s.connections[k].valueHandle == 0
    ensures (a, k) in SendPackets(s).sent <==> (a, k) in s.sent
    ensures !Traced(SendPackets(s).trace, |s.trace|, (a, k))
  {
    InvWithoutTargeted(hasher, s);
    SendTargetedKeeps(hasher, s, s.targeted);
    TargetedExact(hasher, s, s.targeted);
    var t := DropTargeted(s, SendTargeted(s, s.targeted));
    OnlyReadyAll(t, t.broadcast);
    SendPacketsKeeps(hasher, s);
    TracedIffMade(s, SendPackets(s), (a, k));
  }

  lemma AnnouncesMade(hasher: Hasher, s: State, k: u16)
    requires Inv(hasher, s)
    ensures (s.announceAt, k) in SendPackets(s).sent <==> (s.announceAt, k) in s.sent || (s.announceAt, k) in s.targeted
    ensures (s.announceAt, k) in s.targeted ==> (s.announceAt, k) !in s.sent
  {
    InvWithoutTargeted(hasher, s);
    SendTargetedKeeps(hasher, s, s.targeted);
    TargetedDrains(hasher, s);
    TargetedExact(hasher, s, s.targeted);
    var t := DropTargeted(s, SendTargeted(s, s.targeted));
    NotAnnounce(hasher, s);
    OnlyQueued(t, t.broadcast);
  }

  lemma {:induction false} OnlyQueued(s: State, queue: seq<Addr>)
    ensures forall r :: r in SendBroadcasts(s, queue).sent ==> r in s.sent || r.0 in queue
    ensures forall r :: r in s.sent ==> r in SendBroadcasts(s, queue).sent
    decreases |queue|
  {
    if queue != [] {
      OnlyLaterKeys(s, queue[0], 0);
      OnlyQueued(SendBroadcast(s, queue[0], 0), queue[1..]);
      assert forall a :: a in queue[1..] ==> a in queue;
    }
  }
}
