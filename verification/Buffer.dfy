/** net::Buffer: a growing and compacting byte array that behaves like a plain sequence. */
module Buffers {
  import opened Bytes

  const CHEAP_PREPEND: nat := 8
  const INITIAL_SIZE: nat := 1024
  const EXTRA_BUF: nat := 65536

  const CR: byte := 13
  const LF: byte := 10

  datatype ReadResult = Failed | Got(bytes: seq<byte>)

  /** The first CR LF of a sequence, or -1 when there is none. */
  ghost predicate IsFirstCrlf(s: seq<byte>, k: int) {
    if k < 0 then
      k == -1 && forall i :: 0 <= i < |s| - 1 ==> !CrlfAt(s, i)
    else
      CrlfAt(s, k) && forall i :: 0 <= i < k ==> !CrlfAt(s, i)
  }

  predicate CrlfAt(s: seq<byte>, i: int) {
    0 <= i < |s| - 1 && s[i] == CR && s[i + 1] == LF
  }

  class Buffer {
    var buffer: array<byte>
    var readerIndex: nat
    var writerIndex: nat

    ghost predicate Valid()
      reads this
    {
      readerIndex <= writerIndex <= buffer.Length && CHEAP_PREPEND <= buffer.Length
    }

    /** The readable bytes: all a user of the class can see. */
    ghost function Contents(): seq<byte>
      reads this, buffer
      requires Valid()
    {
      buffer[readerIndex..writerIndex]
    }

    constructor (initialSize: nat)
      ensures Valid() && fresh(buffer) && Contents() == []
      ensures PrependableBytes() == 8 && WritableBytes() == initialSize
    {
      buffer := new byte[CHEAP_PREPEND + initialSize];
      readerIndex, writerIndex := CHEAP_PREPEND, CHEAP_PREPEND;
    }

    function ReadableBytes(): (n: nat)
      reads this
      requires Valid()
      ensures n == |buffer[readerIndex..writerIndex]|
    {
      writerIndex - readerIndex
    }

    function WritableBytes(): nat
      reads this
      requires Valid()
    {
      buffer.Length - writerIndex
    }

    function PrependableBytes(): nat
      reads this
    {
      readerIndex
    }

    /** The bytes from peek() to peek() + len. */
    function Peek(len: nat): (s: seq<byte>)
      reads this, buffer
      requires Valid() && len <= ReadableBytes()
      ensures s == Contents()[..len]
    {
      buffer[readerIndex..readerIndex + len]
    }

    method Swap(rhs: Buffer)
      requires Valid() && rhs.Valid()
      modifies this, rhs
      ensures Valid() && rhs.Valid()
      ensures buffer == old(rhs.buffer) && readerIndex == old(rhs.readerIndex) && writerIndex == old(rhs.writerIndex)
      ensures rhs.buffer == old(buffer) && rhs.readerIndex == old(readerIndex) && rhs.writerIndex == old(writerIndex)
    {
      var b, r, w := buffer, readerIndex, writerIndex;
      buffer, readerIndex, writerIndex := rhs.buffer, rhs.readerIndex, rhs.writerIndex;
      rhs.buffer, rhs.readerIndex, rhs.writerIndex := b, r, w;
    }

    method RetrieveAll()
      requires Valid()
      modifies this`readerIndex, this`writerIndex
      ensures Valid() && Contents() == [] && PrependableBytes() == 8
    {
      readerIndex, writerIndex := CHEAP_PREPEND, CHEAP_PREPEND;
    }

    method Retrieve(len: nat)
      requires Valid() && len <= ReadableBytes()
      modifies this`readerIndex, this`writerIndex
      ensures Valid() && Contents() == old(Contents())[len..]
      ensures readerIndex == CHEAP_PREPEND || readerIndex >= old(readerIndex)
    {
      if len < ReadableBytes() {
        readerIndex := readerIndex + len;
      } else {
        RetrieveAll();
      }
    }

    method RetrieveAsString(len: nat) returns (result: seq<byte>)
      requires Valid() && len <= ReadableBytes()
      modifies this`readerIndex, this`writerIndex
      ensures Valid() && result == old(Contents())[..len] && Contents() == old(Contents())[len..]
      ensures readerIndex == CHEAP_PREPEND || readerIndex >= old(readerIndex)
    {
      result := Peek(len);
      Retrieve(len);
    }

    /** std::copy of the readable bytes down to the default offset; the ranges may overlap. */
    method MoveToFront()
      requires Valid() && CHEAP_PREPEND < readerIndex
      modifies this, buffer
      ensures Valid() && buffer == old(buffer) && Contents() == old(Contents())
      ensures readerIndex == CHEAP_PREPEND
    {
      var readable := ReadableBytes();
      for i := 0 to readable
        invariant Valid() && buffer == old(buffer)
        invariant readerIndex == old(readerIndex) && writerIndex == old(writerIndex)
        invariant forall j :: CHEAP_PREPEND <= j < CHEAP_PREPEND + i ==>
                    buffer[j] == old(buffer[j + (readerIndex - CHEAP_PREPEND)])
        invariant forall j :: readerIndex + i <= j < writerIndex ==> buffer[j] == old(buffer[j])
      {
        buffer[CHEAP_PREPEND + i] := buffer[readerIndex + i];
      }
      readerIndex := CHEAP_PREPEND;
      writerIndex := readerIndex + readable;
      assert readable == ReadableBytes();
    }

    /** std::vector::resize. */
    method Resize(size: nat)
      requires Valid() && size >= buffer.Length
      modifies this`buffer
      ensures Valid() && fresh(buffer) && buffer.Length == size && Contents() == old(Contents())
    {
      var bigger := new byte[size];
      forall i | 0 <= i < size {
        bigger[i] := if i < buffer.Length then buffer[i] else 0;
      }
      buffer := bigger;
    }

    method MakeSpace(len: nat)
      requires Valid() && WritableBytes() < len
      modifies this, buffer
      ensures Valid() && Contents() == old(Contents()) && len <= WritableBytes()
      ensures buffer == old(buffer) || fresh(buffer)
      ensures readerIndex == CHEAP_PREPEND || readerIndex == old(readerIndex)
    {
      if WritableBytes() + PrependableBytes() < len + CHEAP_PREPEND {
        Resize(writerIndex + len);
      } else {
        assert CHEAP_PREPEND < readerIndex;
        MoveToFront();
      }
    }

    method EnsureWritableBytes(len: nat)
      requires Valid()
      modifies this, buffer
      ensures Valid() && Contents() == old(Contents()) && len <= WritableBytes()
      ensures len <= old(WritableBytes()) ==> unchanged(this)
      ensures buffer == old(buffer) || fresh(buffer)
      ensures readerIndex == CHEAP_PREPEND || readerIndex == old(readerIndex)
    {
      if WritableBytes() < len {
        MakeSpace(len);
      }
    }

    method HasWritten(len: nat)
      requires Valid() && len <= WritableBytes()
      modifies this`writerIndex
      ensures Valid() && Contents() == old(Contents()) + old(buffer[writerIndex..writerIndex + len])
    {
      writerIndex := writerIndex + len;
    }

    method Unwrite(len: nat)
      requires Valid() && len <= ReadableBytes()
      modifies this`writerIndex
      ensures Valid() && Contents() == old(Contents())[..old(ReadableBytes()) - len]
    {
      writerIndex := writerIndex - len;
    }

    /** std::copy or memcpy into the array. */
    method CopyIn(at: nat, data: seq<byte>)
      requires at + |data| <= buffer.Length
      modifies buffer
      ensures buffer[..] == old(buffer[..at]) + data + old(buffer[at + |data|..])
    {
      for i := 0 to |data|
        invariant forall k :: 0 <= k < i ==> buffer[at + k] == data[k]
        invariant forall k :: 0 <= k < buffer.Length && !(at <= k < at + i) ==> buffer[k] == old(buffer[k])
      {
        buffer[at + i] := data[i];
      }
    }

    /** Bytes land in the free space, from std::copy or the first iovec of readv, and writerIndex
        moves past them. */
    method Fill(bytes: seq<byte>)
      requires Valid() && |bytes| <= WritableBytes()
      modifies this`writerIndex, buffer
      ensures Valid() && Contents() == old(Contents()) + bytes
      ensures writerIndex == old(writerIndex) + |bytes|
    {
      ghost var before := buffer[..];
      CopyIn(writerIndex, bytes);
      assert buffer[..] == before[..writerIndex] + bytes + before[writerIndex + |bytes|..];
      assert buffer[readerIndex..writerIndex] == before[readerIndex..writerIndex];
      HasWritten(|bytes|);
    }

    method Append(data: seq<byte>)
      requires Valid()
      modifies this, buffer
      ensures Valid() && Contents() == old(Contents()) + data
      ensures |data| <= old(WritableBytes()) ==>
                buffer == old(buffer) && readerIndex == old(readerIndex) && writerIndex == old(writerIndex) + |data|
      ensures buffer == old(buffer) || fresh(buffer)
      ensures readerIndex == CHEAP_PREPEND || readerIndex == old(readerIndex)
    {
      EnsureWritableBytes(|data|);
      Fill(data);
    }

    method Prepend(data: seq<byte>)
      requires Valid() && |data| <= PrependableBytes()
      modifies this`readerIndex, buffer
      ensures Valid() && Contents() == data + old(Contents())
      ensures readerIndex == old(readerIndex) - |data|
    {
      readerIndex := readerIndex - |data|;
      ghost var before := buffer[..];
      CopyIn(readerIndex, data);
      assert buffer[..] == before[..readerIndex] + data + before[readerIndex + |data|..];
    }

    /** shrink keeps the content, leaves room for `reserve` more bytes, and starts over with the
        default prepend area. */
    method Shrink(reserve: nat)
      requires Valid()
      modifies this
      ensures Valid() && fresh(buffer) && Contents() == old(Contents())
      ensures reserve <= WritableBytes() && PrependableBytes() == 8
    {
      var other := new Buffer(INITIAL_SIZE);
      other.EnsureWritableBytes(ReadableBytes() + reserve);
      other.Append(buffer[readerIndex..writerIndex]);
      Swap(other);
    }

    /** readFd: the kernel fills the free space first, then a 64 KiB buffer on the stack.
        `result` is what readv delivers, within the limits of the two iovecs. */
    method ReadFd(result: ReadResult) returns (n: int)
      requires Valid()
      requires result.Got? ==>
                 |result.bytes| <= WritableBytes() + if WritableBytes() < EXTRA_BUF then EXTRA_BUF else 0
      modifies this, buffer
      ensures Valid() && (buffer == old(buffer) || fresh(buffer))
      ensures n == if result.Got? then |result.bytes| else -1
      ensures Contents() == old(Contents()) + if result.Got? then result.bytes else []
      ensures readerIndex == CHEAP_PREPEND || readerIndex >= old(readerIndex)
    {
      if result.Failed? {
        return -1;
      }
      var bytes, writable := result.bytes, WritableBytes();
      n := |bytes|;
      if n <= writable {
        Fill(bytes);
      } else {
        Fill(bytes[..writable]);
        assert writerIndex == buffer.Length;
        var extrabuf := bytes[writable..];
        assert bytes[..writable] + extrabuf == bytes;
        Append(extrabuf);
      }
    }

    // ---- integers in network byte order ----

    method AppendInt(x: int, n: nat)
      requires Valid() && FitsSigned(x, n)
      modifies this, buffer
      ensures Valid() && Contents() == old(Contents()) + EncodeSigned(x, n)
      ensures buffer == old(buffer) || fresh(buffer)
    {
      Append(EncodeSigned(x, n));
    }

    method PeekInt(n: nat) returns (x: int)
      requires Valid() && n <= ReadableBytes()
      ensures FitsSigned(x, n) && EncodeSigned(x, n) == Contents()[..n]
    {
      var be := Peek(n);
      x := DecodeSigned(be);
      SignedOnto(be);
    }

    method ReadInt(n: nat) returns (x: int)
      requires Valid() && n <= ReadableBytes()
      modifies this`readerIndex, this`writerIndex
      ensures Valid() && FitsSigned(x, n) && old(Contents()) == EncodeSigned(x, n) + Contents()
    {
      x := PeekInt(n);
      Retrieve(n);
    }

    method PrependInt(x: int, n: nat)
      requires Valid() && FitsSigned(x, n) && n <= PrependableBytes()
      modifies this`readerIndex, buffer
      ensures Valid() && Contents() == EncodeSigned(x, n) + old(Contents())
    {
      Prepend(EncodeSigned(x, n));
    }

    // ---- searching ----

    /** findCRLF: the offset from peek() of the first CR LF, or -1 for NULL. */
    method FindCRLF() returns (k: int)
      requires Valid()
      ensures IsFirstCrlf(Contents(), k)
    {
      k := 0;
      while k < ReadableBytes() - 1
        invariant 0 <= k && forall i :: 0 <= i < k ==> !CrlfAt(Contents(), i)
      {
        if buffer[readerIndex + k] == CR && buffer[readerIndex + k + 1] == LF { return; }
        k := k + 1;
      }
      k := -1;
    }
  }
}
