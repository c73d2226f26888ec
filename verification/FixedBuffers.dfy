/** FixedBuffer: a char array that is filled from the front. */
module FixedBuffers {

  /** FixedBuffer::append on the contents: all of `m` or nothing, and never quite full. */
  function Appended(capacity: nat, b: string, m: string): string {
    if capacity - |b| > |m| then b + m else b
  }

  class FixedBuffer {
    const data: array<char>
    var cur: nat   // offset of cur_ in data_
    var size: nat

    ghost predicate Valid()
      reads this
    {
      cur == size <= data.Length
    }

    ghost function Contents(): string
      requires Valid()
      reads this, data
    {
      data[..size]
    }

    constructor (capacity: nat)
      ensures Valid() && data.Length == capacity && Contents() == "" && fresh(data)
    {
      data := new char[capacity];
      cur, size := 0, 0;
    }

    function Avail(): nat
      requires Valid()
      reads this
    {
      data.Length - size
    }

    /** Moves the write position; the bytes are already in place. */
    method Add(len: nat)
      requires Valid() && size + len <= data.Length
      modifies this
      ensures Valid() && size == old(size) + len
    {
      cur := cur + len;
      size := size + len;
    }

    method Append(buf: string)
      requires Valid()
      modifies this, data
      ensures Valid()
      ensures Contents() == if old(size) + |buf| < data.Length then old(Contents()) + buf else old(Contents())
    {
      if Avail() > |buf| {
        for i := 0 to |buf|
          invariant cur == old(cur) && size == old(size)
          invariant data[..cur] == old(data[..cur])
          invariant data[cur..cur + i] == buf[..i]
        {
          data[cur + i] := buf[i];
        }
        Add(|buf|);
      }
    }

    method Reset()
      requires Valid()
      modifies this
      ensures Valid() && Contents() == ""
    {
      cur, size := 0, 0;
    }
  }
}
