/** The flood of one packet through any network: bounded hops, bounded copies. */
module FloodBounds {
  import opened Bytes
  import opened Packets
  import opened ProtocolWriter
  import opened Relay
  import opened Multimap
  import opened TrackerModel
  import opened Invariants
  import opened Runs
  import opened Mesh

  // ---- Every step of the network keeps it in order ----

  lemma SameTraces(f: Fleet, flood: Flood, net: Net, net': Net, copy: Copy)
    requires CopyOk(f, flood, net, copy) && |net'.nodes| == |net.nodes|
    requires forall n :: 0 <= n < |net.nodes| ==> net.nodes[n].state.trace <= net'.nodes[n].state.trace
    ensures CopyOk(f, flood, net', copy)
  {
    hide Good, Bears, InjectionOk;
    if copy.Relayed? {
      assert net.nodes[copy.via].state.trace <= net'.nodes[copy.via].state.trace;
    }
  }

  lemma InjectKeeps(f: Fleet, flood: Flood, net: Net, e: MeshEvent)
    requires NetOk(f, flood, net) && MeshOk(f, flood, net, e) && e.Inject?
    ensures NetOk(f, flood, MeshStep(f, net, e))
  {
    hide NodeOk, Good, Bears, InjectionOk;
    var net' := MeshStep(f, net, e);
    forall j | 0 <= j < |net'.copies| ensures CopyOk(f, flood, net', net'.copies[j]) {
      if j < |net.copies| {
        SameTraces(f, flood, net, net', net.copies[j]);
      }
    }
  }

  lemma DeliverKeeps(f: Fleet, flood: Flood, net: Net, e: MeshEvent)
    requires NetOk(f, flood, net) && MeshOk(f, flood, net, e) && e.Deliver?
    ensures NetOk(f, flood, MeshStep(f, net, e))
  {
    hide NodeOk, Good, Bears, InjectionOk, Arrive, NewPacket, CopyBytes, CopyHops, CopyOk;
    var copy, net' := net.copies[e.copy], MeshStep(f, net, e);
    var node := net.nodes[copy.node];
    var c := f.ConfigOf(copy.node);
    if NewPacket(c, node.state, CopyBytes(copy)).Some? {
      DeliveredPacket(f, flood, net, copy, c, node.state);
    }
    ArriveKeeps(f, flood, c, node, copy.key, CopyBytes(copy), CopyHops(copy), e.at, e.nowUs);
    forall j | 0 <= j < |net'.copies| ensures CopyOk(f, flood, net', net'.copies[j]) {
      SameTraces(f, flood, net, net', net.copies[j]);
    }
  }

  /** A new copy carries one hop more than the packet had behind it, and one unit of time to live less. */
  lemma NewCopyOk(f: Fleet, flood: Flood, net: Net, n: nat, i: nat, links: Links)
    requires n < |net.nodes| && NodeOk(f, flood, net.nodes[n]) && i < |net.nodes[n].state.trace|
    ensures CopyOk(f, flood, net, CopyOf(n, net.nodes[n], i, links))
  {
    hide Inv, Extends, Good, Bears, AnnounceOk;
    assert EntryOk(f, flood, net.nodes[n].state, net.nodes[n].state.trace[i]);
  }

  lemma LocalKeeps(f: Fleet, flood: Flood, net: Net, e: MeshEvent)
    requires NetOk(f, flood, net) && MeshOk(f, flood, net, e) && e.Local? && |f.name(e.node)| <= 65535
    ensures NetOk(f, flood, MeshStep(f, net, e))
  {
    hide NodeOk, Good, Bears, InjectionOk, Act, CopyOk, ActionOk, CopyOf;
    var net', n := MeshStep(f, net, e), e.node;
    ActKeeps(f, flood, f.ConfigOf(n), net.nodes[n], e.event);
    var node, from := net'.nodes[n], |net.nodes[n].state.trace|;
    var made := CopiesOf(n, node, from, e.links);
    assert net'.copies == net.copies + made;
    forall j | 0 <= j < |net'.copies| ensures CopyOk(f, flood, net', net'.copies[j]) {
      if j < |net.copies| {
        SameTraces(f, flood, net, net', net.copies[j]);
      } else {
        NewCopyOk(f, flood, net', n, from + (j - |net.copies|), e.links);
      }
    }
    forall i, j | 0 <= i < j < |net'.copies| ensures DifferentSends(net'.copies[i], net'.copies[j]) {
      if j >= |net.copies| {
        CopyIndex(n, node, from + (j - |net.copies|), e.links);
        if i < |net.copies| {
          OldIndex(f, flood, net, net.copies[i]);
        } else {
          CopyIndex(n, node, from + (i - |net.copies|), e.links);
        }
      }
    }
  }

  lemma CopyIndex(n: nat, node: Node, i: nat, links: Links)
    requires i < |node.state.trace|
    ensures var copy := CopyOf(n, node, i, links); copy.Relayed? && copy.via == n && copy.index == i
  {
  }

  lemma OldIndex(f: Fleet, flood: Flood, net: Net, copy: Copy)
    requires CopyOk(f, flood, net, copy)
    ensures copy.Relayed? ==> copy.via < |net.nodes| && copy.index < |net.nodes[copy.via].state.trace|
  {
  }

  // ---- Runs of the network ----

  /** Every node starts empty; `announceAt` says where each keeps its announce. */
  function Start(announceAt: seq<Addr>): Net {
    Net(seq(|announceAt|, (n: nat) requires n < |announceAt| => Node(Initial(announceAt[n]), map[])), [])
  }

  /** `nets` are the states of the network between the events. */
  ghost predicate MeshRun(f: Fleet, flood: Flood, announceAt: seq<Addr>, events: seq<MeshEvent>, nets: seq<Net>) {
    && |nets| == |events| + 1 && nets[0] == Start(announceAt)
    && forall i :: 0 <= i < |events| ==> MeshOk(f, flood, nets[i], events[i]) && nets[i + 1] == MeshStep(f, nets[i], events[i])
  }

  predicate NamesFit(f: Fleet, nodes: nat) {
    forall n :: 0 <= n < nodes ==> |f.name(n)| <= 65535
  }

  lemma StartOk(f: Fleet, flood: Flood, announceAt: seq<Addr>)
    ensures NetOk(f, flood, Start(announceAt))
  {
    forall n | 0 <= n < |announceAt| ensures NodeOk(f, flood, Start(announceAt).nodes[n]) {
      InitialInv(f.hasher, announceAt[n]);
    }
  }

  lemma {:induction false} RunOk(f: Fleet, flood: Flood, announceAt: seq<Addr>, events: seq<MeshEvent>, nets: seq<Net>, i: nat)
    requires MeshRun(f, flood, announceAt, events, nets) && i < |nets| && NamesFit(f, |announceAt|)
    ensures NetOk(f, flood, nets[i]) && |nets[i].nodes| == |announceAt|
  {
    hide NetOk, NodeOk, Good, Bears, MeshStep;
    if i == 0 {
      StartOk(f, flood, announceAt);
    } else {
      RunOk(f, flood, announceAt, events, nets, i - 1);
      var net, e := nets[i - 1], events[i - 1];
      assert nets[i] == MeshStep(f, net, e);
      StepNodes(f, net, e);
      match e {
        case Inject(_, _, _) => InjectKeeps(f, flood, net, e);
        case Deliver(_, _, _) => DeliverKeeps(f, flood, net, e);
        case Local(n, _, _) => LocalKeeps(f, flood, net, e);
      }
    }
  }

  lemma StepNodes(f: Fleet, net: Net, e: MeshEvent)
    requires Enabled(net, e)
    ensures |MeshStep(f, net, e).nodes| == |net.nodes|
  {
  }

  // ---- What follows ----

  /** The handle over which a relayed copy was sent. */
  function Over(net: Net, copy: Copy): u16
    requires copy.Relayed? && copy.via < |net.nodes| && copy.index < |net.nodes[copy.via].state.trace|
  {
    net.nodes[copy.via].state.trace[copy.index].handle
  }

  predicate FloodCopy(f: Fleet, flood: Flood, net: Net, copy: Copy) {
    && copy.Relayed? && Bears(f, flood, copy.packet)
    && copy.via < |net.nodes| && copy.index < |net.nodes[copy.via].state.trace|
  }

  /** A node stores the followed packet at most once. */
  lemma StoredOnce(f: Fleet, flood: Flood, node: Node, a: Addr, b: Addr)
    requires NodeOk(f, flood, node) && a in node.state.store && b in node.state.store
    requires Bears(f, flood, node.state.store[a]) && Bears(f, flood, node.state.store[b])
    ensures a == b
  {
    var s := node.state;
    assert Located(s.messages, s.packets, IdOf(f.hasher, s.store[a]), a);
    assert Located(s.messages, s.packets, IdOf(f.hasher, s.store[b]), b);
  }

  /** The copy is of the sending node's own announce, which the node does not store. */
  predicate OwnAnnounce(net: Net, copy: Copy)
    requires copy.Relayed? && copy.via < |net.nodes| && copy.index < |net.nodes[copy.via].state.trace|
  {
    net.nodes[copy.via].state.trace[copy.index].packet == net.nodes[copy.via].state.announceAt
  }

  /** A node sends the followed packet at most once over each handle; and once more only if one of the two is its own
      announce and the other that announce come back. */
  lemma SentOnce(f: Fleet, flood: Flood, net: Net, i: nat, j: nat)
    requires NetOk(f, flood, net) && i < j < |net.copies|
    requires FloodCopy(f, flood, net, net.copies[i]) && FloodCopy(f, flood, net, net.copies[j])
    requires net.copies[i].via == net.copies[j].via && Over(net, net.copies[i]) == Over(net, net.copies[j])
    ensures OwnAnnounce(net, net.copies[i]) != OwnAnnounce(net, net.copies[j])
  {
    hide Good, Bears, Inv, AnnounceOk, StoreOk, IdOf;
    var x, y := net.copies[i], net.copies[j];
    var node := net.nodes[x.via];
    var s := node.state;
    assert CopyOk(f, flood, net, x) && CopyOk(f, flood, net, y) && DifferentSends(x, y) && NodeOk(f, flood, node);
    assert EntryOk(f, flood, s, s.trace[x.index]) && EntryOk(f, flood, s, s.trace[y.index]);
    assert Pair(s.trace[x.index]) != Pair(s.trace[y.index]);
    if !OwnAnnounce(net, x) && !OwnAnnounce(net, y) {
      StoredOnce(f, flood, node, s.trace[x.index].packet, s.trace[y.index].packet);
    }
  }

  /** Every copy of the followed packet carries the initial time to live less its hops, and so none has made more hops
      than that. */
  lemma HopsBounded(f: Fleet, flood: Flood, net: Net, j: nat)
    requires NetOk(f, flood, net) && j < |net.copies| && FloodCopy(f, flood, net, net.copies[j])
    ensures Writable(net.copies[j].packet) && |CopyBytes(net.copies[j])| > 2
    ensures CopyBytes(net.copies[j])[2] + net.copies[j].hops == flood.ttl && net.copies[j].hops <= flood.ttl
  {
    hide NodeOk, PacketBytes, Good, Bears, DifferentSends;
    var copy := net.copies[j];
    assert CopyOk(f, flood, net, copy);
    GoodIsWritable(copy.packet);
    ThirdByte(copy.packet);
  }

  // ---- Counting ----

  /** How many of the first `k` copies are of the followed packet. */
  function CountCopies(f: Fleet, flood: Flood, net: Net, k: nat): nat
    requires k <= |net.copies|
  {
    if k == 0 then 0
    else CountCopies(f, flood, net, k - 1) + if FloodCopy(f, flood, net, net.copies[k - 1]) then 1 else 0
  }

  predicate Listed(f: Fleet, flood: Flood, net: Net, copy: Copy, own: bool) {
    FloodCopy(f, flood, net, copy) && OwnAnnounce(net, copy) == own
  }

  /** The copies of the followed packet among the first `k`, those of own announces or the others, each as the number of
      its node and handle. */
  function Codes(f: Fleet, flood: Flood, net: Net, k: nat, own: bool): seq<nat>
    requires k <= |net.copies|
  {
    if k == 0 then []
    else if Listed(f, flood, net, net.copies[k - 1], own) then
      Codes(f, flood, net, k - 1, own) + [Code(net, net.copies[k - 1])]
    else Codes(f, flood, net, k - 1, own)
  }

  function Code(net: Net, copy: Copy): nat
    requires copy.Relayed? && copy.via < |net.nodes| && copy.index < |net.nodes[copy.via].state.trace|
  {
    copy.via * HANDLES + Over(net, copy)
  }

  lemma {:induction false} AllCounted(f: Fleet, flood: Flood, net: Net, k: nat)
    requires k <= |net.copies|
    ensures CountCopies(f, flood, net, k) == |Codes(f, flood, net, k, false)| + |Codes(f, flood, net, k, true)|
  {
    hide Bears;
    if k > 0 {
      AllCounted(f, flood, net, k - 1);
    }
  }

  lemma {:induction false} CodesAreCopies(f: Fleet, flood: Flood, net: Net, k: nat, own: bool, x: nat)
    requires k <= |net.copies| && x in Codes(f, flood, net, k, own)
    ensures exists i :: 0 <= i < k && Listed(f, flood, net, net.copies[i], own) && Code(net, net.copies[i]) == x
  {
    hide Bears;
    if x in Codes(f, flood, net, k - 1, own) {
      CodesAreCopies(f, flood, net, k - 1, own, x);
    } else {
      assert Listed(f, flood, net, net.copies[k - 1], own);
    }
  }

  lemma {:induction false} CodesDistinct(f: Fleet, flood: Flood, net: Net, k: nat, own: bool)
    requires NetOk(f, flood, net) && k <= |net.copies|
    ensures Distinct(Codes(f, flood, net, k, own))
    ensures forall x :: x in Codes(f, flood, net, k, own) ==> x < |net.nodes| * HANDLES
  {
    hide NetOk, Bears;
    if k > 0 {
      CodesDistinct(f, flood, net, k - 1, own);
      var copy, before := net.copies[k - 1], Codes(f, flood, net, k - 1, own);
      if Listed(f, flood, net, copy, own) {
        assert Code(net, copy) !in before by {
          if Code(net, copy) in before {
            CodesAreCopies(f, flood, net, k - 1, own, Code(net, copy));
            var i :| 0 <= i < k - 1 && Listed(f, flood, net, net.copies[i], own) && Code(net, net.copies[i]) == Code(net, copy);
            SentOnce(f, flood, net, i, k - 1);
            assert false;
          }
        }
      }
    }
  }

  lemma {:induction false} Pigeonhole(s: seq<nat>, bound: nat)
    requires Distinct(s) && forall x :: x in s ==> x < bound
    ensures |s| <= bound
    decreases bound
  {
    if |s| > 0 {
      assert s[0] in s;
      assert 0 < bound;
    }
    if bound == 0 {
    } else if bound - 1 in s {
      var i :| 0 <= i < |s| && s[i] == bound - 1;
      var rest := s[..i] + s[i + 1..];
      forall x | x in rest ensures x < bound - 1 {
        assert x in s;
      }
      Pigeonhole(rest, bound - 1);
    } else {
      Pigeonhole(s, bound - 1);
    }
  }

  /** In any network, over any run without cleanup, in which copies may be lost, delayed, reordered and delivered again:
      the flood of one packet makes at most one copy for every handle of every node, and one more only where the node
      sent its own announce, so it comes to an end; and each copy's time to live and hops add up to the initial time to
      live. */
  lemma FloodTerminates(f: Fleet, flood: Flood, announceAt: seq<Addr>, events: seq<MeshEvent>, nets: seq<Net>)
    requires MeshRun(f, flood, announceAt, events, nets) && NamesFit(f, |announceAt|)
    ensures var net := nets[|events|];
            var own := Codes(f, flood, net, |net.copies|, true);
            && CountCopies(f, flood, net, |net.copies|) <= |announceAt| * HANDLES + |own|
            && Distinct(own) && |own| <= |announceAt| * HANDLES
            && forall j :: 0 <= j < |net.copies| && FloodCopy(f, flood, net, net.copies[j]) ==>
                             && Writable(net.copies[j].packet) && |CopyBytes(net.copies[j])| > 2
                             && CopyBytes(net.copies[j])[2] + net.copies[j].hops == flood.ttl
  {
    hide NetOk, Bears, CopyBytes, Codes, CountCopies;
    RunOk(f, flood, announceAt, events, nets, |events|);
    var net := nets[|events|];
    AllCounted(f, flood, net, |net.copies|);
    CodesDistinct(f, flood, net, |net.copies|, false);
    CodesDistinct(f, flood, net, |net.copies|, true);
    Pigeonhole(Codes(f, flood, net, |net.copies|, false), |announceAt| * HANDLES);
    Pigeonhole(Codes(f, flood, net, |net.copies|, true), |announceAt| * HANDLES);
    forall j | 0 <= j < |net.copies| && FloodCopy(f, flood, net, net.copies[j])
      ensures Writable(net.copies[j].packet) && |CopyBytes(net.copies[j])| > 2
      ensures CopyBytes(net.copies[j])[2] + net.copies[j].hops == flood.ttl
    {
      HopsBounded(f, flood, net, j);
    }
  }
}
