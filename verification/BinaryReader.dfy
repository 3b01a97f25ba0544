/** The bounded cursor over a received buffer. */
module BinaryReaders {
  import opened Bytes

  // What each read yields, as a function of the bytes not read yet: the value and the bytes left.
  // A numeric read past the end yields 0 and consumes nothing.

  function TakeU8(rest: seq<byte>): (r: (byte, seq<byte>))
  {
    if |rest| < 1 then (0, rest) else (rest[0], rest[1..])
  }

  function TakeU16(rest: seq<byte>): (r: (u16, seq<byte>))
  {
    if |rest| < 2 then (0, rest) else (ToU16(rest[..2]), rest[2..])
  }

  function TakeU64(rest: seq<byte>): (r: (u64, seq<byte>))
  {
    if |rest| < 8 then (0, rest) else (ToU64(rest[..8]), rest[8..])
  }

  function TakeData(rest: seq<byte>, len: nat): (r: Option<(seq<byte>, seq<byte>)>)
  {
    if |rest| < len then None else Some((rest[..len], rest[len..]))
  }

  class BinaryReader {
    const buffer: seq<byte>
    var pos: nat

    constructor (offset: u16, buffer: seq<byte>)
      ensures this.buffer == buffer
      ensures pos == offset
    {
      this.buffer := buffer;
      pos := offset;
    }

    /** The bytes not read yet; none when the offset lies past the end. */
    ghost function Rest(): (s: seq<byte>)
      reads this
    {
      if pos <= |buffer| then buffer[pos..] else []
    }

    ghost predicate InBounds()
      reads this
    {
      pos <= |buffer|
    }

    method ReadUint8() returns (value: byte)
      modifies this
      ensures InBounds() == old(InBounds())
      ensures (value, Rest()) == TakeU8(old(Rest()))
    {
      if pos + 1 > |buffer| {
        return 0;
      }
      value := buffer[pos];
      pos := pos + 1;
    }

    method ReadUint16() returns (value: u16)
      modifies this
      ensures InBounds() == old(InBounds())
      ensures (value, Rest()) == TakeU16(old(Rest()))
    {
      if pos + 2 > |buffer| {
        return 0;
      }
      assert buffer[pos..][..2] == [buffer[pos], buffer[pos + 1]];
      value := (buffer[pos] as int) * 0x100 + buffer[pos + 1];
      assert value == ToU16(buffer[pos..][..2]) by {
        var s := buffer[pos..][..2];
        assert s[..1][..0] == [];
        assert FromBigEndian(s[..1]) == s[0];
      }
      pos := pos + 2;
    }

    method ReadUint64() returns (value: u64)
      modifies this
      ensures InBounds() == old(InBounds())
      ensures (value, Rest()) == TakeU64(old(Rest()))
    {
      if pos + 8 > |buffer| {
        return 0;
      }
      ToU64Shifts(buffer[pos..][..8]);
      value := (buffer[pos] as int) * 0x100_0000_0000_0000 + (buffer[pos + 1] as int) * 0x1_0000_0000_0000 +
      (buffer[pos + 2] as int) * 0x100_0000_0000 + (buffer[pos + 3] as int) * 0x1_0000_0000 +
      (buffer[pos + 4] as int) * 0x100_0000 + (buffer[pos + 5] as int) * 0x1_0000 +
      (buffer[pos + 6] as int) * 0x100 + buffer[pos + 7];
      pos := pos + 8;
    }

    /** `None` stands for the null pointer. */
    method ReadData(len: u16) returns (data: Option<seq<byte>>)
      modifies this
      ensures InBounds() == old(InBounds())
      ensures !InBounds() ==> data.None? && Rest() == []
      ensures InBounds() ==>
                match TakeData(old(Rest()), len)
                case None => data.None? && Rest() == old(Rest())
                case Some((d, rest)) => data == Some(d) && Rest() == rest
    {
      if pos + len > |buffer| {
        return None;
      }
      data := Some(buffer[pos..pos + len]);
      assert buffer[pos..][..len] == buffer[pos..pos + len];
      pos := pos + len;
    }
  }
}
