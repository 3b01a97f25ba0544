/** How long the records of what was sent last. */
module Records {
  import opened Bytes
  import opened Clock
  import opened TrackerModel
  import opened Invariants
  import opened Sending
  import opened Runs

  // ---- Reconnecting ----

  /** The neighbour disconnects, connects again under the same handle and is found to speak the protocol. */
  function Reconnect(s: State, key: u16, address: seq<byte>, nowUs: u64, mtu: u16, valueHandle: u16): State {
    SetLink(Connect(Disconnect(s, key), key, address, nowUs), key, mtu, valueHandle)
  }

  /** After a reconnection an announce is due exactly when none was recorded before it: the purge on disconnection
      removes nothing. */
  lemma ReconnectIff(c: Config, s: State, key: u16, address: seq<byte>, nowUs: u64, mtu: u16, valueHandle: u16)
    requires Inv(c.hasher, s) && s.offset >= 1755685519 && valueHandle > 0
    ensures (s.announceAt, key) in AnnounceAll(c, Reconnect(s, key, address, nowUs, mtu, valueHandle), nowUs).targeted
            <==> (s.announceAt, key) !in s.sent
  {
    var t := Disconnect(s, key);
    var u := Connect(t, key, address, nowUs);
    var v := SetLink(u, key, mtu, valueHandle);
    DisconnectKeeps(c.hasher, s, key);
    ConnectKeeps(c.hasher, t, key, address, nowUs);
    SetLinkKeeps(c.hasher, u, key, mtu, valueHandle);
    assert v.sent == s.sent && v.targeted == s.targeted && v.announceAt == s.announceAt && v.offset == s.offset;
    assert Reachable(v.connections, key);
    AnnounceAllExact(c, v, nowUs);
    assert (s.announceAt, key) in s.targeted ==> (s.announceAt, key) !in s.sent;
  }

  // ---- Records over runs ----

  /** Some cleanup during the run found this record stale. */
  ghost predicate Dropped(c: Config, s: State, events: seq<Event>, r: (Addr, u16)) {
    exists i :: 0 <= i < |events| && DropsAt(c, s, events, r, i)
  }

  predicate DropsAt(c: Config, s: State, events: seq<Event>, r: (Addr, u16), i: nat)
    requires i < |events|
  {
    var t := Run(c, s, events[..i]);
    events[i].CleaningUp? && EntryOld(t, r, TimeMs(t.offset, events[i].nowUs), events[i].leftover)
  }

  lemma DroppedLater(c: Config, s: State, events: seq<Event>, r: (Addr, u16))
    requires events != [] && Dropped(c, s, events[..|events| - 1], r)
    ensures Dropped(c, s, events, r)
  {
    hide EntryOld;
    var before := events[..|events| - 1];
    var i :| 0 <= i < |before| && DropsAt(c, s, before, r, i);
    assert before[..i] == events[..i];
    assert DropsAt(c, s, events, r, i);
  }

  /** The record is still there, and nothing has been sent against it since. */
  ghost predicate Respected(s: State, t: State, r: (Addr, u16)) {
    s.trace <= t.trace && r in t.sent && !Traced(t.trace, |s.trace|, r)
  }

  lemma RespectedStep(c: Config, s: State, t: State, e: Event, r: (Addr, u16))
    requires Inv(c.hasher, t) && Allowed(t, e) && Respected(s, t, r)
    requires e.CleaningUp? ==> !EntryOld(t, r, TimeMs(t.offset, e.nowUs), e.leftover)
    ensures Respected(s, Step(c, t, e), r)
  {
    var u := Step(c, t, e);
    hide EntryOld, Inv;
    if e.CleaningUp? {
      assert u.trace == t.trace;
    } else {
      hide Step;
      StepKeeps(c, t, e);
      forall i | |s.trace| <= i < |u.trace| ensures Pair(u.trace[i]) != r {
        if i < |t.trace| {
          assert u.trace[i] == t.trace[i];
        }
      }
    }
  }

  /** A record stays, and is respected, until a cleanup finds it stale. */
  lemma {:induction false} RespectedUntilDropped(c: Config, s: State, events: seq<Event>, r: (Addr, u16))
    requires Inv(c.hasher, s) && AllowedRun(c, s, events) && r in s.sent
    ensures Dropped(c, s, events, r) || Respected(s, Run(c, s, events), r)
  {
    hide Step, EntryOld, Inv;
    if events != [] {
      var before, last := events[..|events| - 1], events[|events| - 1];
      var t := Run(c, s, before);
      AllowedPrefix(c, s, events);
      RespectedUntilDropped(c, s, before, r);
      if Dropped(c, s, before, r) {
        DroppedLater(c, s, events, r);
      } else if last.CleaningUp? && EntryOld(t, r, TimeMs(t.offset, last.nowUs), last.leftover) {
        assert DropsAt(c, s, events, r, |events| - 1);
      } else {
        RunKeeps(c, s, before);
        RespectedStep(c, s, t, last, r);
      }
    }
  }

  /** At most once, across cleanups as well: what is recorded as sent to a handle, an announce or any other packet, is
      sent there again only after a cleanup that found that record stale. */
  lemma SentAgain(c: Config, s: State, events: seq<Event>, r: (Addr, u16))
    requires Inv(c.hasher, s) && AllowedRun(c, s, events) && r in s.sent
    requires Traced(Run(c, s, events).trace, |s.trace|, r)
    ensures Dropped(c, s, events, r)
  {
    RespectedUntilDropped(c, s, events, r);
  }

  // ---- Records and packets ----

  /** Ten minutes after the timestamp lies beyond the largest 64-bit number, and so before `now`. */
  predicate PastTheWrap(timestamp: u64, now: u64) {
    timestamp + TEN_MINUTES_MS >= TWO64 && timestamp + TEN_MINUTES_MS - TWO64 < now
  }

  /** A timestamp that is old as it stands is old over a thousand as well, unless it wraps around. */
  lemma OldTwice(timestamp: u64, now: u64)
    ensures Old(timestamp, now) && !Old(timestamp / 1000, now) <==>
            PastTheWrap(timestamp, now) && now <= timestamp / 1000 + TEN_MINUTES_MS
    ensures !Old(timestamp, now) && Old(timestamp / 1000, now) <==>
            timestamp / 1000 + TEN_MINUTES_MS < now <= timestamp + TEN_MINUTES_MS < TWO64
  {
    assert timestamp / 1000 + TEN_MINUTES_MS < TWO64;
  }

  lemma CleanedSent(s: State, r: (Addr, u16), nowUs: u64, leftover: Leftover)
    ensures r in Cleanup(s, nowUs, leftover).sent <==>
            r in s.sent && !EntryOld(s, r, TimeMs(s.offset, nowUs), leftover)
  {
  }

  /** A cleanup loses the record and keeps its packet exactly when the packet is not old over a thousand, and either the
      connection is stale or the packet's timestamp wraps around. */
  lemma RecordLostIff(s: State, a: Addr, k: u16, nowUs: u64, leftover: Leftover)
    requires a in s.store && (a, k) in s.sent
    ensures var t, now, timestamp := Cleanup(s, nowUs, leftover), TimeMs(s.offset, nowUs), s.store[a].timestamp;
            (a, k) !in t.sent && a in t.store <==>
            now <= timestamp / 1000 + TEN_MINUTES_MS
            && (ConnectionOld(Lookup(s.connections, k), now) || PastTheWrap(timestamp, now))
  {
    CleanedSent(s, (a, k), nowUs, leftover);
    OldTwice(s.store[a].timestamp, TimeMs(s.offset, nowUs));
    StoredEntry(s, a, k, TimeMs(s.offset, nowUs), leftover);
    hide EntryOld, ConnectionOld;
  }

  lemma StoredEntry(s: State, a: Addr, k: u16, now: u64, leftover: Leftover)
    requires a in s.store
    ensures EntryOld(s, (a, k), now, leftover) <==>
            Old(s.store[a].timestamp, now) || ConnectionOld(Lookup(s.connections, k), now)
  {
  }

  /** A cleanup loses the packet and keeps the record exactly when the connection is not stale and ten minutes have
      passed since a thousandth of the timestamp but not since the timestamp. */
  lemma RecordOutlivesIff(s: State, a: Addr, k: u16, nowUs: u64, leftover: Leftover)
    requires a in s.store && (a, k) in s.sent
    ensures var t, now, timestamp := Cleanup(s, nowUs, leftover), TimeMs(s.offset, nowUs), s.store[a].timestamp;
            (a, k) in t.sent && a !in t.store <==>
            timestamp / 1000 + TEN_MINUTES_MS < now <= timestamp + TEN_MINUTES_MS < TWO64
            && !ConnectionOld(Lookup(s.connections, k), now)
  {
    CleanedSent(s, (a, k), nowUs, leftover);
    OldTwice(s.store[a].timestamp, TimeMs(s.offset, nowUs));
    StoredEntry(s, a, k, TimeMs(s.offset, nowUs), leftover);
    hide EntryOld, ConnectionOld;
  }
}
