/** The compacting byte buffer (net/buffer.h, net/buffer.cpp): it behaves as a FIFO
    of bytes whatever its array does underneath. */
module Buffer {
  import opened CInts
  import opened Options
  import opened Bytes

  const INITIAL_SIZE: nat := 1024
  const EXTRA_SIZE: nat := 65536

  /** What `ensureSpace(len)` leaves writable, from the array's size and positions. */
  function WritableAfter(size: nat, readPos: nat, writePos: nat, len: nat): (w: nat)
    requires readPos <= writePos <= size
    ensures w >= len
  {
    if len <= size - writePos then size - writePos
    else if len <= readPos + (size - writePos) then readPos + (size - writePos)
    else size + len - writePos
  }

  /** The appends that leave no writable byte: an exact fit, in place or after
      compaction, or any growth of a full array. */
  predicate FillsExactly(size: nat, readPos: nat, writePos: nat, len: nat)
    requires readPos <= writePos <= size
  {
    || len == size - writePos
    || (len > size - writePos && len == readPos + (size - writePos))
    || (len > readPos + (size - writePos) && size == writePos)
  }

  /** The reads whose overflow into the spare array is at least as long as the space at
      the front: appending it fills the array again. */
  predicate Spills(writable: nat, readPos: nat, delivered: Option<seq<byte>>) {
    delivered.Some? && |delivered.value| > writable && |delivered.value| - writable >= readPos
  }

  class Buffer {
    var vec: array<byte>
    var readPos: nat
    var writePos: nat

    ghost predicate Valid()
      reads this
    {
      readPos <= writePos <= vec.Length
    }

    ghost function Repr(): set<object>
      reads this
    {
      {this, vec}
    }

    /** The bytes put in and not yet taken out, oldest first. */
    ghost function Contents(): seq<byte>
      reads this, vec
      requires Valid()
    {
      vec[readPos..writePos]
    }

    constructor ()
      ensures Valid() && fresh(Repr()) && Contents() == []
      ensures vec.Length == INITIAL_SIZE && readPos == writePos == 0
    {
      vec := new byte[INITIAL_SIZE];
      readPos, writePos := 0, 0;
    }

    function ReadableBytes(): (n: nat)
      reads this, vec
      requires Valid()
      ensures n == |Contents()|
    {
      writePos - readPos
    }

    /** Reading from `getReadPos()` on, without consuming. */
    function Peek(from: nat, len: nat): seq<byte>
      reads this, vec
      requires Valid() && from + len <= ReadableBytes()
    {
      vec[readPos..writePos][from..from + len]
    }

    function WritableBytes(): nat
      reads this
      requires Valid()
    {
      vec.Length - writePos
    }

    /** The copying half of `makeSpace`: the readable bytes move to the front,
        forward over themselves. */
    method Compact()
      requires Valid()
      modifies this`readPos, this`writePos, vec
      ensures Valid() && Contents() == old(Contents())
      ensures readPos == 0 && writePos == old(writePos - readPos)
    {
      var n := writePos - readPos;
      ghost var was := Contents();
      for i := 0 to n
        invariant vec[..i] == was[..i]
        invariant forall k :: readPos + i <= k < writePos ==> vec[k] == was[k - readPos]
        modifies vec
      {
        vec[i] := vec[readPos + i];
      }
      readPos, writePos := 0, n;
    }

    /** The resizing half of `makeSpace`. */
    method Grow(len: nat)
      requires Valid()
      modifies this`vec
      ensures Valid() && Contents() == old(Contents())
      ensures fresh(vec) && vec.Length == old(vec.Length) + len
    {
      var bigger := new byte[vec.Length + len];
      for i := 0 to vec.Length
        invariant bigger[..i] == vec[..i]
        modifies bigger
      {
        bigger[i] := vec[i];
      }
      assert bigger[readPos..writePos] == bigger[..vec.Length][readPos..writePos];
      assert vec[..vec.Length][readPos..writePos] == Contents();
      vec := bigger;
    }

    method MakeSpace(len: nat)
      requires Valid()
      modifies this, vec
      ensures Valid() && fresh(Repr() - old(Repr()))
      ensures Contents() == old(Contents())
      ensures WritableBytes() == if len <= old(readPos + WritableBytes())
                                 then old(readPos + WritableBytes())
                                 else old(WritableBytes()) + len
      ensures readPos == 0 || readPos == old(readPos)
    {
      if len <= readPos + (vec.Length - writePos) {
        Compact();
      } else {
        Grow(len);
      }
    }

    method EnsureSpace(len: nat)
      requires Valid()
      modifies this, vec
      ensures Valid() && fresh(Repr() - old(Repr()))
      ensures Contents() == old(Contents())
      ensures WritableBytes() == WritableAfter(old(vec.Length), old(readPos), old(writePos), len)
      ensures readPos == 0 || readPos == old(readPos)
    {
      if len <= vec.Length - writePos { return; }
      MakeSpace(len);
    }

    /** Stores bytes at the write position without claiming them. */
    method Store(data: seq<byte>)
      requires Valid() && |data| <= WritableBytes()
      modifies vec
      ensures vec[..writePos] == old(vec[..writePos])
      ensures vec[writePos..writePos + |data|] == data
    {
      for i := 0 to |data|
        invariant vec[..writePos] == old(vec[..writePos])
        invariant forall k :: 0 <= k < i ==> vec[writePos + k] == data[k]
      {
        vec[writePos + i] := data[i];
      }
    }

    /** `hasWritten`: claims bytes stored at the write position. */
    method HasWritten(len: nat)
      requires Valid() && len <= WritableBytes()
      modifies this`writePos
      ensures Valid() && writePos == old(writePos) + len
      ensures Contents() == old(Contents()) + vec[old(writePos)..writePos]
    {
      writePos := writePos + len;
    }

    /** Room made, bytes stored and claimed: `append`, and the serialiser's writing in place. */
    method Put(data: seq<byte>)
      requires Valid()
      modifies this, vec
      ensures Valid() && fresh(Repr() - old(Repr()))
      ensures Contents() == old(Contents()) + data
      ensures WritableBytes()
           == WritableAfter(old(vec.Length), old(readPos), old(writePos), |data|) - |data|
      ensures readPos == 0 || readPos == old(readPos)
    {
      EnsureSpace(|data|);
      Store(data);
      assert vec[readPos..writePos] == vec[..writePos][readPos..];
      HasWritten(|data|);
    }

    /** `append`.  `strict` is what the source asserts on leaving, that the write
        position stays below the array's end: it fails when the append fills the array. */
    method Append(data: seq<byte>) returns (strict: bool)
      requires Valid()
      modifies this, vec
      ensures Valid() && fresh(Repr() - old(Repr()))
      ensures Contents() == old(Contents()) + data
      ensures strict <==> !FillsExactly(old(vec.Length), old(readPos), old(writePos), |data|)
      ensures WritableBytes()
           == WritableAfter(old(vec.Length), old(readPos), old(writePos), |data|) - |data|
      ensures readPos == 0 || readPos == old(readPos)
    {
      Put(data);
      strict := writePos < vec.Length;
    }

    method RetrieveAll()
      modifies this`readPos, this`writePos
      ensures Valid() && Contents() == []
    {
      readPos, writePos := 0, 0;
    }

    method Retrieve(len: nat)
      requires Valid() && len <= ReadableBytes()
      modifies this`readPos, this`writePos
      ensures Valid() && Contents() == old(Contents())[len..]
    {
      if len < writePos - readPos {
        readPos := readPos + len;
      } else {
        RetrieveAll();
      }
    }

    method AppendInt32(x: int) returns (strict: bool)
      requires Valid() && FitsInt32(x)
      modifies this, vec
      ensures Valid() && fresh(Repr() - old(Repr()))
      ensures Contents() == old(Contents()) + EncodeInt32(x)
      ensures strict <==> !FillsExactly(old(vec.Length), old(readPos), old(writePos), 4)
      ensures WritableBytes() == WritableAfter(old(vec.Length), old(readPos), old(writePos), 4) - 4
      ensures readPos == 0 || readPos == old(readPos)
    {
      strict := Append(EncodeInt32(x));
    }

    /** `peekInt32`: on an empty buffer it undoes `appendInt32`. */
    method PeekInt32() returns (x: int)
      requires Valid() && ReadableBytes() >= 4
      ensures x == DecodeInt32(Contents()[..4])
      ensures forall y :: FitsInt32(y) && Contents() == EncodeInt32(y) ==> x == y
    {
      x := DecodeInt32(Peek(0, 4));
      forall y | FitsInt32(y) && Contents() == EncodeInt32(y) ensures x == y {
        assert Contents()[..4] == Contents();
        Int32RoundTrip(y);
      }
    }

    /** The room `readFromFd` offers the kernel: its own, and the spare array when
        its own is smaller than that. */
    function ScatterRoom(): nat
      reads this
      requires Valid()
    {
      if WritableBytes() < EXTRA_SIZE then WritableBytes() + EXTRA_SIZE else WritableBytes()
    }

    /** `readFromFd` when the kernel's scatter read delivers `delivered`, or fails
        with `errno` and delivers nothing.  The append of what went to the spare array
        asserts what every append does: a spill no shorter than the space already read
        fails it. */
    method ReadFromFd(delivered: Option<seq<byte>>, errno: int, savedErrno: int)
      returns (n: int, saved: int, strict: bool)
      requires Valid()
      requires delivered.Some? ==> |delivered.value| <= ScatterRoom()
      modifies this, vec
      ensures Valid() && fresh(Repr() - old(Repr()))
      ensures delivered.Some? ==> n == |delivered.value| && saved == savedErrno
      ensures delivered.Some? ==> Contents() == old(Contents()) + delivered.value
      ensures delivered.None? ==> n < 0 && saved == errno && Contents() == old(Contents())
      ensures strict <==> !Spills(old(WritableBytes()), old(readPos), delivered)
    {
      saved, strict := savedErrno, true;
      var writable := vec.Length - writePos;
      if delivered.None? {
        return -1, errno, true;
      }
      var bytes := delivered.value;
      n := |bytes|;
      if n <= writable {
        Store(bytes);
        assert vec[readPos..writePos] == vec[..writePos][readPos..];
        HasWritten(n);
      } else {
        Store(bytes[..writable]);
        assert vec[readPos..writePos] == vec[..writePos][readPos..];
        writePos := vec.Length;
        assert Contents() == old(Contents()) + bytes[..writable];
        strict := Append(bytes[writable..]);
        assert bytes == bytes[..writable] + bytes[writable..];
      }
    }
  }

  /** When the append's own assertion fails, stated on the state before the call. */
  lemma StrictAssertionFailsExactly(size: nat, readPos: nat, writePos: nat, len: nat)
    requires readPos <= writePos <= size
    ensures WritableAfter(size, readPos, writePos, len) == len <==> FillsExactly(size, readPos, writePos, len)
  {
  }
}
