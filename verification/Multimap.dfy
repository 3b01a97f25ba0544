/** An ordered multimap as its sequence of entries, and erasing by a predicate. */
module Multimap {

  predicate Sorted<T>(s: seq<(nat, T)>) {
    forall i, j :: 0 <= i < j < |s| ==> s[i].0 <= s[j].0
  }

  /** Where an entry with key `k` goes: after all entries with keys up to `k`. */
  function UpperBound<T>(s: seq<(nat, T)>, k: nat): (i: nat)
    ensures i <= |s|
    ensures i < |s| ==> k < s[i].0
    ensures forall j :: 0 <= j < i ==> s[j].0 <= k
  {
    if s == [] || k < s[0].0 then 0 else 1 + UpperBound(s[1..], k)
  }

  function Emplace<T>(s: seq<(nat, T)>, k: nat, v: T): seq<(nat, T)> {
    var i := UpperBound(s, k);
    s[..i] + [(k, v)] + s[i..]
  }

  /** Emplacing adds one entry and keeps the order. */
  lemma EmplaceAdds<T>(s: seq<(nat, T)>, k: nat, v: T)
    ensures (k, v) in Emplace(s, k, v)
    ensures forall e :: e in s ==> e in Emplace(s, k, v)
    ensures forall e :: e in Emplace(s, k, v) ==> e in s || e == (k, v)
    ensures Sorted(s) ==> Sorted(Emplace(s, k, v))
  {
    hide UpperBound;
    var i := UpperBound(s, k);
    forall e | e in s ensures e in Emplace(s, k, v) {
      var j :| 0 <= j < |s| && s[j] == e;
      assert Emplace(s, k, v)[if j < i then j else j + 1] == e;
    }
  }

  predicate HasKey<T(==)>(s: seq<(nat, T)>, k: nat) {
    exists e :: e in s && e.0 == k
  }

  /** The entries that satisfy `keep`, in their order. */
  function Filter<T>(keep: T -> bool, s: seq<T>): (r: seq<T>)
    ensures forall e :: e in r ==> e in s && keep(e)
    ensures forall e :: e in s && keep(e) ==> e in r
  {
    if s == [] then []
    else if keep(s[0]) then [s[0]] + Filter(keep, s[1..])
    else Filter(keep, s[1..])
  }

  lemma {:induction false} FilterSorted<T>(keep: ((nat, T)) -> bool, s: seq<(nat, T)>)
    requires Sorted(s)
    ensures Sorted(Filter(keep, s))
  {
    if s != [] {
      FilterSorted(keep, s[1..]);
      var r := Filter(keep, s[1..]);
      assert forall i :: 0 <= i < |r| ==> r[i] in r;
    }
  }

  predicate Distinct(s: seq<nat>) {
    forall i, j :: 0 <= i < j < |s| ==> s[i] != s[j]
  }

  lemma {:induction false} FilterDistinct(keep: nat -> bool, s: seq<nat>)
    requires Distinct(s)
    ensures Distinct(Filter(keep, s))
  {
    if s != [] {
      FilterDistinct(keep, s[1..]);
      var r := Filter(keep, s[1..]);
      forall i | 0 <= i < |r| ensures r[i] != s[0] {
        assert r[i] in r;
      }
    }
  }

  /** What comes first in `r` comes first in `s`. */
  ghost predicate SameOrder(r: seq<nat>, s: seq<nat>) {
    forall i, j :: 0 <= i < j < |r| ==> Precedes(s, r[i], r[j])
  }

  ghost predicate Precedes(s: seq<nat>, x: nat, y: nat) {
    exists i, j :: 0 <= i < j < |s| && s[i] == x && s[j] == y
  }

  lemma PrecedesLater(s: seq<nat>, x: nat, y: nat)
    requires s != [] && Precedes(s[1..], x, y)
    ensures Precedes(s, x, y)
  {
    var i, j :| 0 <= i < j < |s[1..]| && s[1..][i] == x && s[1..][j] == y;
    assert s[i + 1] == x && s[j + 1] == y;
  }

  lemma {:induction false} FilterOrder(keep: nat -> bool, s: seq<nat>)
    ensures SameOrder(Filter(keep, s), s)
  {
    hide Precedes;
    if s != [] {
      FilterOrder(keep, s[1..]);
      var r, rest := Filter(keep, s), Filter(keep, s[1..]);
      forall i, j | 0 <= i < j < |r| ensures Precedes(s, r[i], r[j]) {
        if keep(s[0]) && i == 0 {
          assert r[j] == rest[j - 1] && rest[j - 1] in s[1..];
          HeadPrecedes(s, r[j]);
        } else {
          var k := if keep(s[0]) then 1 else 0;
          assert r[i] == rest[i - k] && r[j] == rest[j - k];
          PrecedesLater(s, r[i], r[j]);
        }
      }
    }
  }

  lemma HeadPrecedes(s: seq<nat>, y: nat)
    requires s != [] && y in s[1..]
    ensures Precedes(s, s[0], y)
  {
    var j :| 0 <= j < |s[1..]| && s[1..][j] == y;
    assert s[j + 1] == y;
  }
}
