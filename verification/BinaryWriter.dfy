/** Appending to an output vector: big-endian numbers, raw data and lower-case hex. */
module BinaryWriters {
  import opened Bytes

  function Hexify(nibble: byte): (c: byte)
    requires nibble < 0x10
    ensures '0' as int <= c <= '9' as int || 'a' as int <= c <= 'f' as int
  {
    if nibble < 10 then nibble + '0' as int else nibble + 'a' as int - 10
  }

  /** Two hex characters for each byte. */
  function HexBytes(s: seq<byte>): (r: seq<byte>)
    ensures |r| == 2 * |s|
  {
    if s == [] then []
    else HexBytes(s[..|s| - 1]) + [Hexify(s[|s| - 1] / 0x10), Hexify(s[|s| - 1] % 0x10)]
  }

  function Hex64(v: u64): (s: seq<byte>)
    ensures |s| == 16
  {
    HexBytes(Bytes64(v))
  }

  class BinaryWriter {
    var vector: seq<byte>

    constructor ()
      ensures vector == []
    {
      vector := [];
    }

    method WriteUint8(value: byte)
      modifies this
      ensures vector == old(vector) + [value]
    {
      vector := vector + [value];
    }

    method WriteUint16(value: u16)
      modifies this
      ensures vector == old(vector) + Bytes16(value)
    {
      vector := vector + [value / 0x100];
      vector := vector + [value % 0x100];
      Bytes16Shifts(value);
    }

    method WriteUint64(value: u64)
      modifies this
      ensures vector == old(vector) + Bytes64(value)
    {
      vector := vector + [value / 0x100_0000_0000_0000 % 0x100];
      vector := vector + [value / 0x1_0000_0000_0000 % 0x100];
      vector := vector + [value / 0x100_0000_0000 % 0x100];
      vector := vector + [value / 0x1_0000_0000 % 0x100];
      vector := vector + [value / 0x100_0000 % 0x100];
      vector := vector + [value / 0x1_0000 % 0x100];
      vector := vector + [value / 0x100 % 0x100];
      vector := vector + [value % 0x100];
      assert vector == old(vector) + Bytes64(value) by {
        Bytes64Shifts(value);
      }
    }

    method WriteData(data: seq<byte>, len: u16)
      requires len <= |data|
      modifies this
      ensures vector == old(vector) + data[..len]
    {
      for i := 0 to len
        invariant vector == old(vector) + data[..i]
      {
        vector := vector + [data[i]];
      }
    }

    method WriteUint8Hex(value: byte)
      modifies this
      ensures vector == old(vector) + [Hexify(value / 0x10), Hexify(value % 0x10)]
    {
      vector := vector + [Hexify(value / 0x10)];
      vector := vector + [Hexify(value % 0x10)];
    }

    method WriteUint64Hex(value: u64)
      modifies this
      ensures vector == old(vector) + Hex64(value)
    {
      ghost var s := Bytes64(value);
      Bytes64Shifts(value);
      var bytes := [value / 0x100_0000_0000_0000 % 0x100, value / 0x1_0000_0000_0000 % 0x100,
      value / 0x100_0000_0000 % 0x100, value / 0x1_0000_0000 % 0x100,
      value / 0x100_0000 % 0x100, value / 0x1_0000 % 0x100,
      value / 0x100 % 0x100, value % 0x100];
      for i := 0 to 8
        invariant vector == old(vector) + HexBytes(s[..i])
      {
        WriteUint8Hex(bytes[i]);
        assert s[..i + 1][..i] == s[..i];
      }
      assert s[..8] == s;
    }
  }
}
