/** Bytes, fixed-width unsigned integers and their big-endian form. */
module Bytes {

  type byte = x: int | 0 <= x < 0x100
  type u16 = x: int | 0 <= x < 0x1_0000
  type u64 = x: int | 0 <= x < 0x1_0000_0000_0000_0000

  datatype Option<+T> = None | Some(value: T) {
    predicate IsFailure() {
      None?
    }

    function PropagateFailure<U>(): Option<U>
      requires None?
    {
      None
    }

    function Extract(): T
      requires Some?
    {
      value
    }
  }

  /** True iff the flag byte has the given bit (a power of two) set. */
  predicate HasBit(flags: byte, bit: nat)
    requires bit > 0
  {
    flags / bit % 2 == 1
  }

  function Min(a: nat, b: nat): nat {
    if a <= b then a else b
  }

  /** The first `limit` bytes of `s`, or all of it when it is shorter. */
  function Clamp(s: seq<byte>, limit: nat): (r: seq<byte>)
    ensures |r| == Min(|s|, limit)
  {
    s[..Min(|s|, limit)]
  }

  function Pow256(n: nat): (r: nat)
    ensures r >= 1
  {
    if n == 0 then 1 else 0x100 * Pow256(n - 1)
  }

  /** The `n` low-order bytes of `v`, most significant first. */
  function BigEndian(v: nat, n: nat): (s: seq<byte>)
    ensures |s| == n
    decreases n, v
  {
    if n == 0 then [] else BigEndian(v / 0x100, n - 1) + [v % 0x100]
  }

  function FromBigEndian(s: seq<byte>): (v: nat)
  {
    if s == [] then 0 else 0x100 * FromBigEndian(s[..|s| - 1]) + s[|s| - 1]
  }

  lemma {:induction false} BigEndianRoundTrip(v: nat, n: nat)
    requires v < Pow256(n)
    ensures FromBigEndian(BigEndian(v, n)) == v
    decreases n
  {
    if n > 0 {
      BigEndianRoundTrip(v / 0x100, n - 1);
      var s := BigEndian(v, n);
      assert s[..|s| - 1] == BigEndian(v / 0x100, n - 1);
    }
  }

  lemma {:induction false} FromBigEndianBound(s: seq<byte>)
    ensures FromBigEndian(s) < Pow256(|s|)
  {
    if s != [] {
      FromBigEndianBound(s[..|s| - 1]);
    }
  }

  lemma {:induction false} FromBigEndianRoundTrip(s: seq<byte>)
    ensures BigEndian(FromBigEndian(s), |s|) == s
  {
    if s != [] {
      FromBigEndianRoundTrip(s[..|s| - 1]);
      assert s == s[..|s| - 1] + [s[|s| - 1]];
    }
  }

  lemma PowWidths()
    ensures Pow256(1) == 0x100
    ensures Pow256(2) == 0x1_0000
    ensures Pow256(8) == 0x1_0000_0000_0000_0000
  {
    assert Pow256(3) == 0x100_0000;
    assert Pow256(4) == 0x1_0000_0000;
    assert Pow256(5) == 0x100_0000_0000;
    assert Pow256(6) == 0x1_0000_0000_0000;
    assert Pow256(7) == 0x100_0000_0000_0000;
  }

  function Bytes16(v: u16): (s: seq<byte>)
    ensures |s| == 2
  {
    BigEndian(v, 2)
  }

  function Bytes64(v: u64): (s: seq<byte>)
    ensures |s| == 8
  {
    BigEndian(v, 8)
  }

  function ToU16(s: seq<byte>): (v: u16)
    requires |s| == 2
  {
    FromBigEndianBound(s);
    PowWidths();
    FromBigEndian(s)
  }

  function ToU64(s: seq<byte>): (v: u64)
    requires |s| == 8
  {
    FromBigEndianBound(s);
    PowWidths();
    FromBigEndian(s)
  }

  lemma Bytes16RoundTrip(v: u16)
    ensures ToU16(Bytes16(v)) == v
  {
    PowWidths();
    BigEndianRoundTrip(v, 2);
  }

  lemma Bytes64RoundTrip(v: u64)
    ensures ToU64(Bytes64(v)) == v
  {
    PowWidths();
    BigEndianRoundTrip(v, 8);
  }

  /** The two bytes that the shifts of the 16-bit writer produce. */
  lemma Bytes16Shifts(v: u16)
    ensures Bytes16(v) == [v / 0x100 % 0x100, v % 0x100]
  {
    assert BigEndian(v / 0x100, 1) == BigEndian(v / 0x100 / 0x100, 0) + [v / 0x100 % 0x100];
  }

  /** One more byte in front: how the chained shifts of the 64-bit writer unroll. */
  lemma Unroll(v: nat, n: nat)
    requires n > 0
    ensures BigEndian(v, n) == BigEndian(v / 0x100, n - 1) + [v % 0x100]
  {
  }

  /** The eight bytes that the shifts of the 64-bit writer produce. */
  lemma Bytes64Shifts(v: u64)
    ensures Bytes64(v) ==
            [v / 0x100_0000_0000_0000 % 0x100, v / 0x1_0000_0000_0000 % 0x100,
             v / 0x100_0000_0000 % 0x100, v / 0x1_0000_0000 % 0x100,
             v / 0x100_0000 % 0x100, v / 0x1_0000 % 0x100,
             v / 0x100 % 0x100, v % 0x100]
  {
    var v1 := v / 0x100;
    var v2 := v1 / 0x100;
    var v3 := v2 / 0x100;
    var v4 := v3 / 0x100;
    var v5 := v4 / 0x100;
    var v6 := v5 / 0x100;
    var v7 := v6 / 0x100;
    assert v2 == v / 0x1_0000;
    assert v3 == v / 0x100_0000;
    assert v4 == v / 0x1_0000_0000;
    assert v5 == v / 0x100_0000_0000;
    assert v6 == v / 0x1_0000_0000_0000;
    assert v7 == v / 0x100_0000_0000_0000;
    assert BigEndian(v7, 1) == [v7 % 0x100] by {
      Unroll(v7, 1);
      assert BigEndian(v7 / 0x100, 0) == [];
    }
    Unroll(v6, 2);
    Unroll(v5, 3);
    Unroll(v4, 4);
    Unroll(v3, 5);
    Unroll(v2, 6);
    Unroll(v1, 7);
    Unroll(v, 8);
  }

  /** The eight shifted bytes that the 64-bit reader ORs together, as a sum. */
  lemma ToU64Shifts(s: seq<byte>)
    requires |s| == 8
    ensures ToU64(s) ==
            (s[0] as int) * 0x100_0000_0000_0000 + (s[1] as int) * 0x1_0000_0000_0000 +
            (s[2] as int) * 0x100_0000_0000 + (s[3] as int) * 0x1_0000_0000 +
            (s[4] as int) * 0x100_0000 + (s[5] as int) * 0x1_0000 + (s[6] as int) * 0x100 + s[7]
  {
    assert FromBigEndian([]) == 0;
    assert FromBigEndian(s[..1]) == s[0] by { assert s[..1][..0] == []; }
    assert FromBigEndian(s[..2]) == 0x100 * (s[0] as int) + s[1] by { assert s[..2][..1] == s[..1]; }
    assert FromBigEndian(s[..3]) == 0x100 * FromBigEndian(s[..2]) + s[2] by { assert s[..3][..2] == s[..2]; }
    assert FromBigEndian(s[..4]) == 0x100 * FromBigEndian(s[..3]) + s[3] by { assert s[..4][..3] == s[..3]; }
    assert FromBigEndian(s[..5]) == 0x100 * FromBigEndian(s[..4]) + s[4] by { assert s[..5][..4] == s[..4]; }
    assert FromBigEndian(s[..6]) == 0x100 * FromBigEndian(s[..5]) + s[5] by { assert s[..6][..5] == s[..5]; }
    assert FromBigEndian(s[..7]) == 0x100 * FromBigEndian(s[..6]) + s[6] by { assert s[..7][..6] == s[..6]; }
  }
}
