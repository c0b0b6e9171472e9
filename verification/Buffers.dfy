/** The byte cursors of buffer_in.cpp and buffer_out.cpp. A read past the end throws: Fail here. */
module Buffers {
  import opened Bytes

  datatype Read<T> = Fail | Got(value: T)

  class BufferIn {
    const p: seq<Byte>
    var o: nat

    ghost predicate Valid()
      reads this
    {
      o <= |p|
    }

    /** The octets not read yet. */
    ghost function Rest(): seq<Byte>
      reads this
      requires Valid()
    {
      p[o..]
    }

    constructor (p: seq<Byte>)
      ensures Valid() && this.p == p && Rest() == p
    {
      this.p := p;
      o := 0;
    }

    method EndReached() returns (r: bool)
      requires Valid()
      ensures r <==> Rest() == []
    {
      r := o == |p|;
    }

    method BytesLeft() returns (n: nat)
      requires Valid()
      ensures n == |Rest()|
    {
      n := |p| - o;
    }

    method GetByte() returns (r: Read<Byte>)
      requires Valid()
      modifies this`o
      ensures Valid()
      ensures old(Rest()) == [] ==> r == Fail && Rest() == old(Rest())
      ensures old(Rest()) != [] ==> r == Got(old(Rest())[0]) && Rest() == old(Rest())[1..]
    {
      if o >= |p| {
        return Fail;
      }
      r := Got(p[o]);
      o := o + 1;
    }

    method GetShort() returns (r: Read<U16>)
      requires Valid()
      modifies this`o
      ensures Valid()
      ensures |old(Rest())| < 2 ==> r == Fail && Rest() == old(Rest())
      ensures |old(Rest())| >= 2 ==> r == Got(Get16(old(Rest()), 0)) && Rest() == old(Rest())[2..]
    {
      if o + 2 > |p| {
        return Fail;
      }
      r := Got(Get16(p, o));
      o := o + 2;
    }

    method GetLong() returns (r: Read<U32>)
      requires Valid()
      modifies this`o
      ensures Valid()
      ensures |old(Rest())| < 4 ==> r == Fail && Rest() == old(Rest())
      ensures |old(Rest())| >= 4 ==> r == Got(Get32(old(Rest()), 0)) && Rest() == old(Rest())[4..]
    {
      if o + 4 > |p| {
        return Fail;
      }
      r := Got(Get32(p, o));
      o := o + 4;
    }

    /** get_segment; what a new buffer_in over it would read. */
    method GetSegment(len: nat) returns (r: Read<seq<Byte>>)
      requires Valid()
      modifies this`o
      ensures Valid()
      ensures |old(Rest())| < len ==> r == Fail && Rest() == old(Rest())
      ensures |old(Rest())| >= len ==> r == Got(old(Rest())[..len]) && Rest() == old(Rest())[len..]
    {
      if o + len > |p| {
        return Fail;
      }
      assert p[o..o + len] == p[o..][..len];
      r := Got(p[o..o + len]);
      o := o + len;
    }

    method Seek(len: nat) returns (ok: bool)
      requires Valid()
      modifies this`o
      ensures Valid() && ok == (|old(Rest())| >= len)
      ensures Rest() == if ok then old(Rest())[len..] else old(Rest())
    {
      ok := o + len <= |p|;
      if ok {
        o := o + len;
      }
    }
  }

  /** The octets add_padding appends to reach a multiple of four. */
  function Padding(n: nat): (r: seq<Byte>)
    ensures |r| < 4 && (n + |r|) % 4 == 0 && forall i | 0 <= i < |r| :: r[i] == 0
  {
    seq((4 - n % 4) % 4, _ => 0)
  }

  class BufferOut {
    var buffer: seq<Byte>

    constructor ()
      ensures buffer == []
    {
      buffer := [];
    }

    method AddByte(b: Byte)
      modifies this
      ensures buffer == old(buffer) + [b]
    {
      buffer := buffer + [b];
    }

    method AddShort(n: U16) returns (offset: nat)
      modifies this
      ensures buffer == old(buffer) + Be16(n) && offset == |old(buffer)|
    {
      offset := |buffer|;
      buffer := buffer + [n / M8] + [n % M8];
    }

    method AddLong(n: U32) returns (offset: nat)
      modifies this
      ensures buffer == old(buffer) + Be32(n) && offset == |old(buffer)|
    {
      offset := |buffer|;
      buffer := buffer + [n / 0x100_0000] + [n / M16 % M8] + [n / M8 % M8] + [n % M8];
    }

    /** A field filled in afterwards; vector::at guards the offset. */
    method PutShort(n: U16, offset: nat)
      requires offset + 2 <= |buffer|
      modifies this
      ensures buffer == old(buffer)[..offset] + Be16(n) + old(buffer)[offset + 2..]
    {
      buffer := buffer[offset := n / M8][offset + 1 := n % M8];
    }

    method PutLong(bytes: seq<Byte>, offset: nat)
      requires offset + 4 <= |buffer| && |bytes| == 4
      modifies this
      ensures buffer == old(buffer)[..offset] + bytes + old(buffer)[offset + 4..]
    {
      buffer := buffer[offset := bytes[0]][offset + 1 := bytes[1]][offset + 2 := bytes[2]][offset + 3 := bytes[3]];
    }

    method AddBuffer(s: seq<Byte>)
      modifies this
      ensures buffer == old(buffer) + s
    {
      for i := 0 to |s|
        invariant buffer == old(buffer) + s[..i]
      {
        buffer := buffer + [s[i]];
      }
      assert s[..|s|] == s;
    }

    method AddPadding()
      modifies this
      ensures buffer == old(buffer) + Padding(|old(buffer)|)
    {
      var padding := 4 - |buffer| % 4;
      if padding != 4 {
        ghost var n := padding;
        while padding > 0
          invariant 0 <= padding <= n
          invariant buffer == old(buffer) + seq(n - padding, _ => 0)
        {
          buffer := buffer + [0];
          padding := padding - 1;
        }
      }
    }
  }
}
