/** Which received messages cannot be written back. */
module Writability {
  import opened Bytes
  import opened Packets
  import opened ProtocolParser
  import opened RoundTrip
  import opened TrackerModel
  import opened Invariants
  import opened Sending
  import opened Runs

  /** The message is flagged as having a sender peer id, and the id does not have sixteen characters. */
  predicate StrangeSenderId(payload: seq<byte>) {
    SenderIdText(payload).Some? && |SenderIdText(payload).value| != 16
  }

  /** A message that parses has the peer the writer will dereference iff its sender id has sixteen characters. */
  lemma PeerPresentIff(payload: seq<byte>)
    requires ParseMessage(payload).Some?
    ensures PeerPresent(ParseMessage(payload).value) <==> !StrangeSenderId(payload)
  {
    hide ParseFixed, TakeMentions, DecodePeerId;
    SenderTextIff(payload);
  }

  lemma SenderTextIff(payload: seq<byte>)
    requires ParseHead(payload).Some?
    ensures PeerPresent(ParseHead(payload).value.0) <==> !StrangeSenderId(payload)
    ensures ParseFixed(payload).Some? && ParseHead(payload).value.0.flags == ParseFixed(payload).value.0.flags
  {
    hide ParseFixed, DecodePeerId;
  }

  /** The event queues something that cannot be written: a new message with a strange sender id that may still travel,
      or such a packet of the node's own. */
  predicate QueuesUnwritable(c: Config, s: State, e: Event) {
    match e
    case Received(_, bytes, _, _) =>
      var i := ParsePacket(c.inflate, bytes);
      && NewPacket(c, s, bytes).Some? && i.Decoded? && i.ttl > 0
      && i.packetType == TYPE_MESSAGE && StrangeSenderId(i.payload)
    case Originated(packet, _) => !Known(s, IdOf(c.hasher, packet)) && packet.ttl > 0 && !Writable(packet)
    case _ => false
  }

  lemma NewPacketWritable(c: Config, s: State, bytes: seq<byte>)
    requires NewPacket(c, s, bytes).Some?
    ensures var i := ParsePacket(c.inflate, bytes);
            && i.Decoded? && NewPacket(c, s, bytes).value.ttl == i.ttl
            && (Writable(NewPacket(c, s, bytes).value) <==> !(i.packetType == TYPE_MESSAGE && StrangeSenderId(i.payload)))
  {
    hide ParsePacket, ParseMessage, IdOf, Known, StrangeSenderId;
    var i := ParsePacket(c.inflate, bytes);
    if i.packetType == TYPE_MESSAGE {
      PeerPresentIff(i.payload);
    }
  }

  // ---- The node's own announce ----

  predicate AnnounceTyped(s: State) {
    s.announce.packetType == TYPE_ANNOUNCE && s.announce.body.Raw?
  }

  lemma AnnounceFromTyped(s: State, key: nat, nowUs: u64)
    requires AnnounceTyped(s) && key <= HANDLES
    ensures AnnounceTyped(AnnounceFrom(s, key, nowUs))
  {
    AnnounceStamped(s, key, nowUs);
  }

  lemma StepTyped(c: Config, s: State, e: Event)
    requires Inv(c.hasher, s) && Allowed(s, e) && AnnounceTyped(s)
    ensures AnnounceTyped(Step(c, s, e))
  {
    hide Inv, Receive, AnnounceFrom, SendPackets, IdOf, Taken, NewPacket;
    match e {
      case Received(key, bytes, at, nowUs) =>
        InvHandlePeers(c.hasher, s);
        ReceiveShape(c, s, key, bytes, at, nowUs);
        TakenAt(c, s, key, bytes, at);
      case Announcing(nowUs) => AnnounceFromTyped(SetupAnnounce(c, s), 0, nowUs);
      case Sending => SendPacketsKeeps(c.hasher, s);
      case _ =>
    }
  }

  // ---- The queues ----

  /** Only announces are targeted, so the broadcast queue decides. */
  lemma WritableIff(hasher: Hasher, s: State)
    requires Inv(hasher, s) && AnnounceTyped(s)
    ensures QueuesWritable(s) <==> BroadcastWritable(s.broadcast, s.store)
  {
    NotAnnounce(hasher, s);
    assert forall e :: e in s.targeted ==> PacketAt(s, e.0) == s.announce;
    assert forall a :: a in s.broadcast ==> a in s.store;
  }

  ghost predicate BroadcastWritable(broadcast: seq<Addr>, store: map<Addr, Packet>) {
    forall a :: a in broadcast ==> a in store && Writable(store[a])
  }

  lemma QueuedWritable(broadcast: seq<Addr>, store: map<Addr, Packet>, at: Addr, p: Packet)
    requires BroadcastWritable(broadcast, store) && at !in store
    ensures BroadcastWritable(Queued(broadcast, at, p.ttl), store[at := p]) <==> p.ttl == 0 || Writable(p)
  {
    hide Writable;
    assert at in broadcast + [at];
  }

  lemma BroadcastStep(c: Config, s: State, e: Event)
    requires Inv(c.hasher, s) && Allowed(s, e) && BroadcastWritable(s.broadcast, s.store)
    ensures BroadcastWritable(Step(c, s, e).broadcast, Step(c, s, e).store) <==> !QueuesUnwritable(c, s, e)
  {
    hide Inv, Receive, AnnounceAll, SendPackets, IdOf, Taken, NewPacket, ParsePacket, StrangeSenderId, Writable, Known;
    match e {
      case Received(key, bytes, at, nowUs) =>
        InvHandlePeers(c.hasher, s);
        ReceiveShape(c, s, key, bytes, at, nowUs);
        TakenAt(c, s, key, bytes, at);
        if NewPacket(c, s, bytes).Some? {
          NewPacketWritable(c, s, bytes);
          QueuedWritable(s.broadcast, s.store, at, NewPacket(c, s, bytes).value);
        }
      case Originated(packet, at) => QueuedWritable(s.broadcast, s.store, at, packet);
      case Announcing(nowUs) => AnnounceAllExact(c, s, nowUs);
      case Sending => SendPacketsKeeps(c.hasher, s);
      case CleaningUp(nowUs, leftover) =>
      case _ =>
    }
  }

  /** A step keeps the queues writable iff it does not accept a message flagged as having a sender peer id of another
      length than sixteen. */
  lemma StepWritableIff(c: Config, s: State, e: Event)
    requires Inv(c.hasher, s) && Allowed(s, e) && AnnounceTyped(s) && QueuesWritable(s)
    ensures QueuesWritable(Step(c, s, e)) <==> !QueuesUnwritable(c, s, e)
  {
    hide Inv, Step, QueuesUnwritable, QueuesWritable, BroadcastWritable;
    WritableIff(c.hasher, s);
    BroadcastStep(c, s, e);
    StepKeeps(c, s, e);
    StepTyped(c, s, e);
    WritableIff(c.hasher, Step(c, s, e));
  }

  // ---- Runs ----

  /** Every state of the run has writable queues. */
  ghost predicate AlwaysWritable(c: Config, s: State, events: seq<Event>) {
    forall i :: 0 <= i <= |events| ==> QueuesWritable(Run(c, s, events[..i]))
  }

  /** No event of the run queues what cannot be written. */
  ghost predicate NoneUnwritable(c: Config, s: State, events: seq<Event>) {
    forall i :: 0 <= i < |events| ==> !QueuesUnwritable(c, Run(c, s, events[..i]), events[i])
  }

  lemma AlwaysPrefix(c: Config, s: State, events: seq<Event>)
    requires events != []
    ensures var before := events[..|events| - 1];
            && (AlwaysWritable(c, s, events) <==> AlwaysWritable(c, s, before) && QueuesWritable(Run(c, s, events)))
            && (NoneUnwritable(c, s, events) <==>
                NoneUnwritable(c, s, before) && !QueuesUnwritable(c, Run(c, s, before), events[|events| - 1]))
  {
    hide QueuesUnwritable, QueuesWritable, Run;
    var before := events[..|events| - 1];
    assert events[..|events|] == events;
    assert forall i :: 0 <= i <= |before| ==> before[..i] == events[..i];
  }

  /** Along every run, whatever is queued can be written at every moment iff no event accepts such a message. */
  lemma {:induction false} AlwaysWritableIff(c: Config, s: State, events: seq<Event>)
    requires Inv(c.hasher, s) && AllowedRun(c, s, events) && AnnounceTyped(s) && QueuesWritable(s)
    ensures AlwaysWritable(c, s, events) <==> NoneUnwritable(c, s, events)
    ensures AnnounceTyped(Run(c, s, events))
  {
    hide Inv, QueuesUnwritable, QueuesWritable, Step;
    if events != [] {
      var before, last := events[..|events| - 1], events[|events| - 1];
      AllowedPrefix(c, s, events);
      AlwaysWritableIff(c, s, before);
      RunKeeps(c, s, before);
      StepTyped(c, Run(c, s, before), last);
      AlwaysPrefix(c, s, events);
      assert before[..|before|] == before;
      if AlwaysWritable(c, s, before) {
        StepWritableIff(c, Run(c, s, before), last);
      }
    } else {
      assert events[..0] == events;
    }
  }
}
