/** What runs do to the tables of connections and neighbours. */
module Connections {
  import opened Bytes
  import opened Packets
  import opened TrackerModel
  import opened Invariants
  import opened Sending
  import opened Runs
  import opened Duplicates
  import opened Cleaning

  // ---- What has been reported ----

  /** When the connection with this handle was made, if it is up: if the last report about it was of a connection. */
  function UpSince(events: seq<Event>, key: u16): Option<u64> {
    if events == [] then None
    else
      match events[|events| - 1]
      case Connected(k, _, nowUs) => if k == key then Some(nowUs) else UpSince(events[..|events| - 1], key)
      case Disconnected(k) => if k == key then None else UpSince(events[..|events| - 1], key)
      case _ => UpSince(events[..|events| - 1], key)
  }

  /** When the neighbour was last discovered, if it has not connected or started to since. */
  function HeardAt(events: seq<Event>, address: seq<byte>): Option<u64> {
    if events == [] then None
    else
      match events[|events| - 1]
      case Discovered(a, nowUs) => if a == address then Some(nowUs) else HeardAt(events[..|events| - 1], address)
      case Connecting(a) => if a == address then None else HeardAt(events[..|events| - 1], address)
      case Connected(_, a, _) => if a == address then None else HeardAt(events[..|events| - 1], address)
      case _ => HeardAt(events[..|events| - 1], address)
  }

  /** What the table says: the time the connection was last seen, if it is up. */
  function UpIn(connections: map<u16, Connection>, key: u16): Option<u64> {
    if key in connections && connections[key].connected then Some(connections[key].lastSeenUs) else None
  }

  // ---- Connections ----

  /** Only reports of connection and disconnection change what is up. */
  lemma OtherUp(c: Config, s: State, e: Event, key: u16)
    requires Inv(c.hasher, s) && Allowed(s, e) && !(e.Connected? && e.key == key) && !(e.Disconnected? && e.key == key)
    ensures UpIn(Step(c, s, e).connections, key) == UpIn(s.connections, key)
  {
    hide Inv, Receive, Originate, AnnounceAll, SendPackets, Cleanup, IdOf, Extends;
    match e {
      case Received(k, bytes, at, nowUs) =>
        InvHandlePeers(c.hasher, s);
        ReceiveConnections(c, s, k, bytes, at, nowUs);
      case Originated(packet, at) => OriginateExact(c.hasher, s, packet, at);
      case Announcing(nowUs) => AnnounceAllExact(c, s, nowUs);
      case Sending => SendPacketsKeeps(c.hasher, s);
      case CleaningUp(nowUs, leftover) => TablesCleaned(s, nowUs, leftover);
      case _ =>
    }
  }

  lemma ReportedUp(c: Config, s: State, e: Event)
    requires e.Connected? || e.Disconnected?
    ensures UpIn(Step(c, s, e).connections, e.key) == if e.Connected? then Some(e.nowUs) else None
  {
    hide Receive, AnnounceAll, SendPackets, Cleanup;
  }

  /** Over every run, a connection is up in the table iff the last report about its handle was of a connection, and was
      last seen at that time. */
  lemma {:induction false} UpIff(c: Config, announceAt: Addr, events: seq<Event>, key: u16)
    requires AllowedRun(c, Initial(announceAt), events)
    ensures UpIn(Run(c, Initial(announceAt), events).connections, key) == UpSince(events, key)
  {
    hide Step, UpIn, Inv;
    var s := Initial(announceAt);
    if events == [] {
      NothingUp(announceAt, key);
    } else {
      var before, last := events[..|events| - 1], events[|events| - 1];
      AllowedPrefix(c, s, events);
      UpIff(c, announceAt, before, key);
      InitialInv(c.hasher, announceAt);
      RunKeeps(c, s, before);
      if (last.Connected? || last.Disconnected?) && last.key == key {
        ReportedUp(c, Run(c, s, before), last);
      } else {
        OtherUp(c, Run(c, s, before), last, key);
      }
    }
  }

  lemma NothingUp(announceAt: Addr, key: u16)
    ensures UpIn(Initial(announceAt).connections, key) == None
  {
  }

  /** What a report of a connection puts into the table: what was known of the neighbour, or of an earlier connection with
      this handle, now up under its own handle and seen now. No other entry changes, and the neighbour is gone. */
  lemma ConnectExact(s: State, key: u16, address: seq<byte>, nowUs: u64)
    ensures var t := Connect(s, key, address, nowUs);
            && t.connections.Keys == s.connections.Keys + {key}
            && (forall k :: k in s.connections && k != key ==> t.connections[k] == s.connections[k])
            && t.connections[key].handle == key && t.connections[key].connected && t.connections[key].lastSeenUs == nowUs
            && (t.connections[key].valueHandle, t.connections[key].mtu) ==
               (if address in s.neighbours then (s.neighbours[address].valueHandle, s.neighbours[address].mtu)
                else if key in s.connections then (s.connections[key].valueHandle, s.connections[key].mtu) else (0, 0))
            && t.neighbours == (map a | a in s.neighbours && a != address :: s.neighbours[a])
            && t == s.(connections := t.connections, neighbours := t.neighbours)
  {
  }

  /** Looking a connection up adds it, down and under its own handle, if it is not there, and changes nothing else. */
  lemma LookedUp(s: State, key: u16)
    ensures var t := ConnectionFor(s, key);
            && t == s.(connections := t.connections)
            && (forall k :: k in s.connections ==> k in t.connections && t.connections[k] == s.connections[k])
            && (forall k :: k in t.connections && k !in s.connections ==>
                              k == key && t.connections[k] == Connection(key, false, 0, 0, 0))
            && key in t.connections
  {
  }

  /** Looking a connection up by subscript adds a default entry if it is not there, and changes nothing else. */
  lemma SubscriptAdds(s: State, key: u16)
    ensures var t := Touch(s, key);
            && t == s.(connections := t.connections)
            && t.connections.Keys == s.connections.Keys + {key}
            && (forall k :: k in s.connections ==> t.connections[k] == s.connections[k])
            && (key !in s.connections ==> t.connections[key] == Connection(0, false, 0, 0, 0))
  {
  }

  // ---- Neighbours ----

  lemma NeighboursStep(c: Config, s: State, e: Event, address: seq<byte>)
    requires Inv(c.hasher, s) && Allowed(s, e)
    ensures var t := Step(c, s, e);
            if e.Discovered? && e.address == address then
              address in t.neighbours && t.neighbours[address].lastSeenUs == e.nowUs
            else if (e.Connecting? || e.Connected?) && e.address == address then address !in t.neighbours
            else
              && (address in t.neighbours ==> address in s.neighbours && t.neighbours[address] == s.neighbours[address])
              && (address in s.neighbours && address !in t.neighbours ==>
                    e.CleaningUp? && Unused(s.neighbours[address], Now(s, e.nowUs)))
  {
    hide Inv, Receive, Originate, AnnounceAll, SendPackets, Cleanup, IdOf, Unused, Now, Extends;
    match e {
      case Received(k, bytes, at, nowUs) =>
        InvHandlePeers(c.hasher, s);
        ReceiveConnections(c, s, k, bytes, at, nowUs);
      case Originated(packet, at) => OriginateExact(c.hasher, s, packet, at);
      case Announcing(nowUs) => AnnounceAllExact(c, s, nowUs);
      case Sending => SendPacketsKeeps(c.hasher, s);
      case CleaningUp(nowUs, leftover) => TablesCleaned(s, nowUs, leftover);
      case _ =>
    }
  }

  /** Over every run, each neighbour in the table was last discovered at the time it was last seen, and has not connected
      or started to since. */
  lemma {:induction false} NeighbourHeard(c: Config, announceAt: Addr, events: seq<Event>, address: seq<byte>)
    requires AllowedRun(c, Initial(announceAt), events)
    ensures var t := Run(c, Initial(announceAt), events);
            address in t.neighbours ==> HeardAt(events, address) == Some(t.neighbours[address].lastSeenUs)
  {
    hide Step, Inv, Unused;
    var s := Initial(announceAt);
    if events != [] {
      var before, last := events[..|events| - 1], events[|events| - 1];
      AllowedPrefix(c, s, events);
      NeighbourHeard(c, announceAt, before, address);
      InitialInv(c.hasher, announceAt);
      RunKeeps(c, s, before);
      NeighboursStep(c, Run(c, s, before), last, address);
    }
  }

  // ---- Duplicates ----

  lemma NewestFrom(s: State, t: State)
    requires KeepsNewest(s, t)
    ensures forall k :: k in t.handlePeers ==> k in s.handlePeers && t.handlePeers[k] == s.handlePeers[k]
  {
  }

  /** Of several connections to one peer, all up, the one made last is kept. */
  lemma LastMadeStays(c: Config, announceAt: Addr, events: seq<Event>, t: State, k: u16) returns (n: u16)
    requires AllowedRun(c, Initial(announceAt), events)
    requires var s := Run(c, Initial(announceAt), events);
             && KeepsNewest(s, t) && !HasDuplicate(t.handlePeers) && k in s.handlePeers && k != 0
             && forall h :: h in s.handlePeers && h != 0 && s.handlePeers[h] == s.handlePeers[k] ==> UpSince(events, h).Some?
    ensures var s := Run(c, Initial(announceAt), events);
            && n in t.handlePeers && n in s.handlePeers && t.handlePeers[n] == s.handlePeers[k] && UpSince(events, n).Some?
            && (forall m :: m in t.handlePeers && m != 0 && t.handlePeers[m] == s.handlePeers[k] ==> m == n)
            && forall h :: h in s.handlePeers && h != 0 && s.handlePeers[h] == s.handlePeers[k] ==>
                             UpSince(events, h).value <= UpSince(events, n).value
  {
    hide UpSince, KeepsNewest, HasDuplicate, Run, AllowedRun;
    var s := Run(c, Initial(announceAt), events);
    NewestFrom(s, t);
    n := ExactlyOneLeft(s, t, k);
    UpIff(c, announceAt, events, n);
    forall h | h in s.handlePeers && h != 0 && s.handlePeers[h] == s.handlePeers[k]
      ensures UpSince(events, h).value <= UpSince(events, n).value
    {
      UpIff(c, announceAt, events, h);
    }
  }
}
