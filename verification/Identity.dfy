/** When two packets count as the same. */
module Identity {
  import opened Bytes
  import opened Packets

  /** The two packets are taken for the same one, whatever the hash. */
  ghost predicate AlwaysSame(p: Packet, q: Packet) {
    forall hasher: Hasher :: IdOf(hasher, p) == IdOf(hasher, q)
  }

  /** Everything but the time to live and the signature. */
  function Hashed(p: Packet): Packet {
    p.(ttl := 0, signature := [])
  }

  lemma Bytes64Injective(a: u64, b: u64)
    requires Bytes64(a) == Bytes64(b)
    ensures a == b
  {
    Bytes64RoundTrip(a);
    Bytes64RoundTrip(b);
  }

  /** The hashed bytes besides the payload determine the type, the flags, the timestamp, the sender and the recipient. */
  lemma MetaInjective(p: Packet, q: Packet)
    requires HashedMeta(p) == HashedMeta(q)
    ensures p.packetType == q.packetType && p.flags == q.flags && p.timestamp == q.timestamp
    ensures p.sender == q.sender && p.recipient == q.recipient
  {
    hide Bytes64;
    var m, n := HashedMeta(p), HashedMeta(q);
    assert m[0] == p.packetType && m[1] == p.flags && n[0] == q.packetType && n[1] == q.flags;
    assert m[2..10] == Bytes64(p.timestamp) && n[2..10] == Bytes64(q.timestamp);
    assert m[10..18] == Bytes64(p.sender) && n[10..18] == Bytes64(q.sender);
    assert m[18..26] == Bytes64(p.recipient) && n[18..26] == Bytes64(q.recipient);
    Bytes64Injective(p.timestamp, q.timestamp);
    Bytes64Injective(p.sender, q.sender);
    Bytes64Injective(p.recipient, q.recipient);
  }

  /** Different hashed bytes can be told apart by some hash. */
  lemma ToldApart(p: Packet, q: Packet)
    requires p.body.Raw? && q.body.Raw? && (p.body.payload != q.body.payload || HashedMeta(p) != HashedMeta(q))
    ensures !AlwaysSame(p, q)
  {
    hide HashedMeta;
    var key := if p.body.payload != q.body.payload then p.body.payload else HashedMeta(p);
    var hasher: Hasher := x => if x == key then 1 else 0;
    assert IdOf(hasher, p) != IdOf(hasher, q) by {
      assert hasher(key) == 1;
      if p.body.payload != q.body.payload {
        LowBit(hasher(HashedMeta(p)), hasher(HashedMeta(q)));
      } else {
        SecondBit(hasher(p.body.payload));
      }
    }
  }

  lemma LowBit(a: bv32, b: bv32)
    ensures 1 ^ (a << 1) != 0 ^ (b << 1)
  {
  }

  lemma SecondBit(a: bv32)
    ensures a ^ (1 << 1) != a ^ (0 << 1)
  {
  }

  lemma SameMeta(p: Packet, q: Packet)
    requires Hashed(p) == Hashed(q)
    ensures HashedMeta(p) == HashedMeta(q) && p.body == q.body
  {
    hide Bytes64;
  }

  lemma SameHash(p: Packet, q: Packet)
    requires p.body.Raw? && q.body.Raw? && p.body == q.body && HashedMeta(p) == HashedMeta(q)
    ensures AlwaysSame(p, q)
  {
    hide HashedMeta;
  }

  lemma OpaqueSameIff(p: Packet, q: Packet)
    requires p.body.Raw? && q.body.Raw?
    ensures AlwaysSame(p, q) <==> Hashed(p) == Hashed(q)
  {
    hide AlwaysSame, HashedMeta;
    if p.body.payload != q.body.payload || HashedMeta(p) != HashedMeta(q) {
      ToldApart(p, q);
      if Hashed(p) == Hashed(q) {
        SameMeta(p, q);
        assert false;
      }
    } else {
      MetaInjective(p, q);
      SameHash(p, q);
    }
  }

  /** Two messages are the same iff they have the same message id; two other packets iff they agree in everything but time
      to live and signature, the timestamp included; a message and another packet never are. */
  lemma SameIff(p: Packet, q: Packet)
    ensures AlwaysSame(p, q) <==>
            || (p.body.Text? && q.body.Text? && p.body.message.id == q.body.message.id)
            || (p.body.Raw? && q.body.Raw? && Hashed(p) == Hashed(q))
  {
    hide HashedMeta;
    if p.body.Raw? && q.body.Raw? {
      hide AlwaysSame;
      OpaqueSameIff(p, q);
    } else {
      var hasher: Hasher := x => 0;
      assert AlwaysSame(p, q) ==> IdOf(hasher, p) == IdOf(hasher, q);
    }
  }
}
