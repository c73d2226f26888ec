/** Buffer: a growing byte vector with a read and a write position. */
module Buffers {

  const CHEAP_PREPEND := 8
  const EXTRA := 65536

  datatype ReadResult = Failed(errno: int) | Received(bytes: string)

  class Buffer {
    var buffer: array<char>
    var readerIndex: nat
    var writerIndex: nat

    ghost predicate Valid()
      reads this
    {
      CHEAP_PREPEND <= readerIndex <= writerIndex <= buffer.Length
    }

    /** The readable bytes. */
    ghost function Contents(): string
      requires Valid()
      reads this, buffer
    {
      buffer[readerIndex..writerIndex]
    }

    constructor (initialSize: nat)
      ensures Valid() && Contents() == "" && fresh(buffer)
    {
      buffer := new char[CHEAP_PREPEND + initialSize];
      readerIndex, writerIndex := CHEAP_PREPEND, CHEAP_PREPEND;
    }

    function ReadableBytes(): (n: nat)
      requires Valid()
      reads this, buffer
      ensures n == |Contents()|
    {
      writerIndex - readerIndex
    }

    function WritableBytes(): nat
      requires Valid()
      reads this
    {
      buffer.Length - writerIndex
    }

    method RetrieveAll()
      requires Valid()
      modifies this
      ensures Valid() && buffer == old(buffer) && Contents() == ""
      ensures readerIndex == writerIndex == CHEAP_PREPEND
    {
      readerIndex, writerIndex := CHEAP_PREPEND, CHEAP_PREPEND;
    }

    /** Drops the first `len` bytes, or all of them if there are fewer. */
    method Retrieve(len: nat)
      requires Valid()
      modifies this
      ensures Valid() && buffer == old(buffer)
      ensures Contents() == if len < |old(Contents())| then old(Contents())[len..] else ""
      ensures Contents() == "" ==> readerIndex == writerIndex == CHEAP_PREPEND
    {
      if len < ReadableBytes() {
        readerIndex := readerIndex + len;
      } else {
        RetrieveAll();
      }
    }

    method RetrieveAsString(len: nat) returns (result: string)
      requires Valid() && len <= ReadableBytes()
      modifies this
      ensures Valid() && buffer == old(buffer)
      ensures result + Contents() == old(Contents()) && |result| == len
    {
      result := buffer[readerIndex..readerIndex + len];
      Retrieve(len);
    }

    /** Reallocate so that `len` bytes fit behind the readable ones. */
    method Grow(len: nat)
      requires Valid()
      modifies this
      ensures Valid() && fresh(buffer) && Contents() == old(Contents()) && WritableBytes() == len
      ensures readerIndex == old(readerIndex)
    {
      var bigger := new char[writerIndex + len];
      for i := 0 to writerIndex
        invariant buffer == old(buffer) && readerIndex == old(readerIndex) && writerIndex == old(writerIndex)
        invariant bigger[..i] == buffer[..i]
      {
        bigger[i] := buffer[i];
      }
      assert bigger[readerIndex..writerIndex] == bigger[..writerIndex][readerIndex..];
      assert buffer[readerIndex..writerIndex] == buffer[..writerIndex][readerIndex..];
      buffer := bigger;
    }

    /** Move the readable bytes to the front, in place, over their own old place. */
    method Compact()
      requires Valid()
      modifies this, buffer
      ensures Valid() && buffer == old(buffer) && Contents() == old(Contents())
      ensures readerIndex == CHEAP_PREPEND
    {
      var readable := ReadableBytes();
      ghost var was := Contents();
      for i := 0 to readable
        invariant buffer == old(buffer) && readerIndex == old(readerIndex) && writerIndex == old(writerIndex)
        invariant buffer[CHEAP_PREPEND..CHEAP_PREPEND + i] == was[..i]
        invariant forall k | CHEAP_PREPEND + i <= k < buffer.Length :: buffer[k] == old(buffer[k])
      {
        assert buffer[readerIndex + i] == was[i];
        buffer[CHEAP_PREPEND + i] := buffer[readerIndex + i];
        assert buffer[CHEAP_PREPEND..CHEAP_PREPEND + i + 1] == buffer[CHEAP_PREPEND..CHEAP_PREPEND + i] + [was[i]];
      }
      readerIndex := CHEAP_PREPEND;
      writerIndex := readerIndex + readable;
      assert was[..readable] == was;
    }

    method MakeSpace(len: nat)
      requires Valid()
      modifies this, buffer
      ensures Valid() && (buffer == old(buffer) || fresh(buffer)) && Contents() == old(Contents())
      ensures WritableBytes() >= len
      ensures buffer == old(buffer) <==> old(WritableBytes() + readerIndex) >= len + CHEAP_PREPEND
      ensures buffer == old(buffer) ==> readerIndex == CHEAP_PREPEND
      ensures old(WritableBytes()) < len && buffer == old(buffer) ==> readerIndex < old(readerIndex)
    {
      if WritableBytes() + readerIndex < len + CHEAP_PREPEND {
        Grow(len);
      } else {
        Compact();
      }
    }

    method EnsureWritableBytes(len: nat)
      requires Valid()
      modifies this, buffer
      ensures Valid() && (buffer == old(buffer) || fresh(buffer)) && Contents() == old(Contents())
      ensures WritableBytes() >= len
      ensures old(WritableBytes()) >= len ==>
        buffer == old(buffer) && readerIndex == old(readerIndex) && writerIndex == old(writerIndex)
    {
      if WritableBytes() < len {
        MakeSpace(len);
      }
    }

    /** Copy `data` behind the readable bytes, where there is room for it. */
    method Fill(data: string)
      requires Valid() && |data| <= WritableBytes()
      modifies buffer
      ensures buffer[readerIndex..writerIndex + |data|] == old(Contents()) + data
    {
      for i := 0 to |data|
        invariant buffer[readerIndex..writerIndex + i] == old(Contents()) + data[..i]
      {
        buffer[writerIndex + i] := data[i];
        assert buffer[readerIndex..writerIndex + i + 1] == buffer[readerIndex..writerIndex + i] + [data[i]];
      }
    }

    method Append(data: string)
      requires Valid()
      modifies this, buffer
      ensures Valid() && (buffer == old(buffer) || fresh(buffer))
      ensures Contents() == old(Contents()) + data
    {
      EnsureWritableBytes(|data|);
      Fill(data);
      writerIndex := writerIndex + |data|;
    }

    /** The most readv can deliver: the writable space, and the spill area if that is small. */
    function Offered(): nat
      requires Valid()
      reads this
    {
      WritableBytes() + if WritableBytes() < EXTRA then EXTRA else 0
    }

    /** readFd when readv returns `result`. */
    method ReadFd(result: ReadResult) returns (n: int)
      requires Valid() && (result.Received? ==> |result.bytes| <= Offered())
      modifies this, buffer
      ensures Valid() && (buffer == old(buffer) || fresh(buffer))
      ensures Contents() == old(Contents()) + if result.Received? then result.bytes else ""
      ensures n == if result.Received? then |result.bytes| else -1
    {
      if result.Failed? {
        return -1;
      }
      var bytes := result.bytes;
      var writable := WritableBytes();
      n := |bytes|;
      if n <= writable {
        Fill(bytes);
        writerIndex := writerIndex + n;
      } else {
        var extrabuf := bytes[writable..];
        Fill(bytes[..writable]);
        writerIndex := buffer.Length;
        assert bytes == bytes[..writable] + extrabuf;
        Append(extrabuf);
      }
    }
  }

  // ---------------------------------------------------------------- histories

  datatype Op = Appending(data: string) | Retrieving(len: nat) | Reading(bytes: string)

  /** The queue of bytes the operations describe. */
  function Fifo(ops: seq<Op>): string {
    if ops == [] then "" else
      var q := Fifo(ops[..|ops| - 1]);
      match ops[|ops| - 1]
      case Appending(data) => q + data
      case Retrieving(len) => if len < |q| then q[len..] else ""
      case Reading(bytes) => q + bytes
  }

  /** Any history of a buffer is that of a queue of bytes. Reads of more than the vector can
      take at once arrive in pieces, as repeated readv calls deliver them. */
  method Replay(initialSize: nat, ops: seq<Op>) returns (contents: string)
    ensures contents == Fifo(ops)
  {
    var b := new Buffer(initialSize);
    for i := 0 to |ops|
      invariant fresh(b) && fresh(b.buffer) && b.Valid() && b.Contents() == Fifo(ops[..i])
    {
      assert ops[..i + 1][..i] == ops[..i];
      match ops[i]
      case Appending(data) => b.Append(data);
      case Retrieving(len) => b.Retrieve(len);
      case Reading(bytes) => ReadAll(b, bytes);
    }
    assert ops[..|ops|] == ops;
    contents := b.RetrieveAsString(b.ReadableBytes());
  }

  method ReadAll(b: Buffer, bytes: string)
    requires b.Valid()
    modifies b, b.buffer
    ensures b.Valid() && (b.buffer == old(b.buffer) || fresh(b.buffer))
    ensures b.Contents() == old(b.Contents()) + bytes
  {
    var got := 0;
    while got < |bytes|
      invariant got <= |bytes| && b.Valid() && (b.buffer == old(b.buffer) || fresh(b.buffer))
      invariant b.Contents() == old(b.Contents()) + bytes[..got]
    {
      var most := b.Offered();
      var next := if |bytes| - got <= most then |bytes| else got + most;
      var n := b.ReadFd(Received(bytes[got..next]));
      assert bytes[..got] + bytes[got..next] == bytes[..next];
      got := got + n;
    }
    assert bytes[..got] == bytes;
  }
}
