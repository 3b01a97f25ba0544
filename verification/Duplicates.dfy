/** Two connections to the same peer, and getting rid of the older one. */
module Duplicates {
  import opened Bytes
  import opened TrackerModel
  import opened Runs

  function LastSeen(s: State, key: u16): u64 {
    Lookup(s.connections, key).lastSeenUs
  }

  /** Two different nonzero handles lead to the same peer. */
  predicate SamePeer(handlePeers: map<u16, u64>, a: u16, b: u16) {
    a in handlePeers && b in handlePeers && a != b && a != 0 && b != 0 && handlePeers[a] == handlePeers[b]
  }

  predicate HasDuplicate(handlePeers: map<u16, u64>) {
    exists a, b :: SamePeer(handlePeers, a, b)
  }

  /** Of the first two handles found that lead to the same peer, the one seen less recently; 0 if there are none.
      `other` is the one that stays. */
  method FindDuplicate(s: State) returns (duplicate: u16, other: u16)
    ensures duplicate == 0 <==> !HasDuplicate(s.handlePeers)
    ensures duplicate != 0 ==> SamePeer(s.handlePeers, duplicate, other) && LastSeen(s, duplicate) <= LastSeen(s, other)
  {
    var reversed: map<u64, u16> := map[];
    for h := 0 to HANDLES
      invariant forall p :: p in reversed ==> reversed[p] < h && reversed[p] in s.handlePeers && s.handlePeers[reversed[p]] == p
      invariant forall k :: k in s.handlePeers && 0 < k < h ==> s.handlePeers[k] in reversed && reversed[s.handlePeers[k]] == k
    {
      if h in s.handlePeers {
        var peer := s.handlePeers[h];
        if peer in reversed && reversed[peer] != 0 {
          var earlier := reversed[peer];
          assert SamePeer(s.handlePeers, earlier, h);
          if LastSeen(s, earlier) < LastSeen(s, h) {
            return earlier, h;
          }
          return h, earlier;
        }
        reversed := reversed[peer := h];
      }
    }
    assert forall a, b :: !SamePeer(s.handlePeers, a, b);
    return 0, 0;
  }

  /** Nothing is reached differently; handles are only lost, and never the most recently seen one of a peer. */
  ghost predicate KeepsNewest(s: State, t: State) {
    && (forall k :: LastSeen(t, k) == LastSeen(s, k))
    && (forall k :: k in t.handlePeers ==> k in s.handlePeers && t.handlePeers[k] == s.handlePeers[k])
    && (0 in s.handlePeers ==> 0 in t.handlePeers)
    && (forall k :: k in s.handlePeers && k != 0 ==> Survivor(s, t, k))
  }

  ghost predicate Survivor(s: State, t: State, k: u16)
    requires k in s.handlePeers
  {
    exists n :: n in t.handlePeers && n != 0 && t.handlePeers[n] == s.handlePeers[k] && LastSeen(s, n) >= LastSeen(s, k)
  }

  /** Looking at both connections and disconnecting one of them. */
  function Drop(s: State, duplicate: u16, other: u16): State {
    Disconnect(Touch(Touch(s, duplicate), other), duplicate)
  }

  lemma DropEffect(s: State, duplicate: u16, other: u16)
    ensures Drop(s, duplicate, other).handlePeers == s.handlePeers - {duplicate}
    ensures forall k :: LastSeen(Drop(s, duplicate, other), k) == LastSeen(s, k)
  {
  }

  lemma DropsOlder(s: State, t: State, duplicate: u16, other: u16)
    requires KeepsNewest(s, t) && SamePeer(t.handlePeers, duplicate, other)
    requires LastSeen(t, duplicate) <= LastSeen(t, other)
    ensures KeepsNewest(s, Drop(t, duplicate, other))
  {
    hide Drop, LastSeen, Survivor;
    var u := Drop(t, duplicate, other);
    DropEffect(t, duplicate, other);
    forall k | k in s.handlePeers && k != 0 ensures Survivor(s, u, k) {
      SurvivorStays(s, t, u, duplicate, other, k);
    }
  }

  lemma SurvivorStays(s: State, t: State, u: State, duplicate: u16, other: u16, k: u16)
    requires k in s.handlePeers && Survivor(s, t, k)
    requires SamePeer(t.handlePeers, duplicate, other) && LastSeen(s, duplicate) <= LastSeen(s, other)
    requires u.handlePeers == t.handlePeers - {duplicate}
    ensures Survivor(s, u, k)
  {
    hide LastSeen;
    var n :| n in t.handlePeers && n != 0 && t.handlePeers[n] == s.handlePeers[k] && LastSeen(s, n) >= LastSeen(s, k);
    var m := if n == duplicate then other else n;
    assert m in u.handlePeers && u.handlePeers[m] == s.handlePeers[k] && LastSeen(s, m) >= LastSeen(s, k);
  }

  lemma NothingDropped(s: State)
    ensures KeepsNewest(s, s)
  {
    forall k | k in s.handlePeers && k != 0 ensures Survivor(s, s, k) {
      assert LastSeen(s, k) >= LastSeen(s, k);
    }
  }

  /** Dropping the duplicates one after the other, as the main loop does, ends with no peer reached twice: of a peer's
      nonzero handles exactly one is left, and it is one that was seen most recently. */
  method ResolveDuplicates(s: State) returns (t: State)
    ensures KeepsNewest(s, t) && !HasDuplicate(t.handlePeers)
  {
    hide KeepsNewest, Drop, LastSeen, HasDuplicate;
    t := s;
    NothingDropped(s);
    var duplicate, other := FindDuplicate(t);
    while duplicate != 0
      invariant KeepsNewest(s, t)
      invariant duplicate == 0 <==> !HasDuplicate(t.handlePeers)
      invariant duplicate != 0 ==> SamePeer(t.handlePeers, duplicate, other) && LastSeen(t, duplicate) <= LastSeen(t, other)
      decreases |t.handlePeers|
    {
      DropsOlder(s, t, duplicate, other);
      DropEffect(t, duplicate, other);
      ghost var before := t.handlePeers;
      t := Drop(t, duplicate, other);
      assert t.handlePeers.Keys == before.Keys - {duplicate};
      duplicate, other := FindDuplicate(t);
    }
  }

  /** Every peer that was reached over a nonzero handle is left with exactly one, seen no earlier than any it had. */
  lemma ExactlyOneLeft(s: State, t: State, k: u16) returns (n: u16)
    requires KeepsNewest(s, t) && !HasDuplicate(t.handlePeers) && k in s.handlePeers && k != 0
    ensures n in t.handlePeers && n != 0 && t.handlePeers[n] == s.handlePeers[k]
    ensures forall m :: m in t.handlePeers && m != 0 && t.handlePeers[m] == s.handlePeers[k] ==> m == n
    ensures forall h :: h in s.handlePeers && h != 0 && s.handlePeers[h] == s.handlePeers[k] ==> LastSeen(s, h) <= LastSeen(s, n)
  {
    assert Survivor(s, t, k);
    n :| n in t.handlePeers && n != 0 && t.handlePeers[n] == s.handlePeers[k] && LastSeen(s, n) >= LastSeen(s, k);
    forall m | m in t.handlePeers && m != 0 && t.handlePeers[m] == s.handlePeers[k] ensures m == n {
      assert !SamePeer(t.handlePeers, m, n);
    }
    forall h | h in s.handlePeers && h != 0 && s.handlePeers[h] == s.handlePeers[k] ensures LastSeen(s, h) <= LastSeen(s, n) {
      assert Survivor(s, t, h);
    }
  }
}
