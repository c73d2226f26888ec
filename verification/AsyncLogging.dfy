/**
 AsyncLogging with its fields: buffers are objects that move between the producers' side, the
 full queue, the backend's batch and its two spares. Each method is one lock region of `append`
 or `threadFunc`, or one step between them, and is proved to be that step of the model on the
 characters in the arrays.
 */
module AsyncLoggers {
  import opened Options
  import opened FixedBuffers
  import opened AsyncLogModel

  /** A large buffer that holds `text`. */
  ghost predicate Good(b: FixedBuffer, text: string)
    reads b, b.data
  {
    b.Valid() && b.data.Length == LARGE && b.Contents() == text
  }

  /** Two buffers are two objects with two arrays. */
  ghost predicate Other(a: FixedBuffer?, b: FixedBuffer?) {
    a != null && b != null ==> a != b && a.data != b.data
  }

  ghost predicate OffRow(a: FixedBuffer?, bs: seq<FixedBuffer>) {
    forall i | 0 <= i < |bs| :: Other(a, bs[i])
  }

  ghost predicate RowApart(bs: seq<FixedBuffer>) {
    forall i, j | 0 <= i < j < |bs| :: Other(bs[i], bs[j])
  }

  ghost predicate RowsApart(cs: seq<FixedBuffer>, bs: seq<FixedBuffer>) {
    forall i | 0 <= i < |cs| :: OffRow(cs[i], bs)
  }

  /** The arrays of the given buffers. */
  ghost function Arrays(bs: seq<FixedBuffer?>): set<array<char>> {
    set b: FixedBuffer? | b in bs && b != null :: b.data
  }

  /** Two new buffers and the objects they are made of. */
  method NewPair() returns (a: FixedBuffer, b: FixedBuffer, ghost parts: set<object>)
    ensures Good(a, "") && Good(b, "") && Other(a, b) && fresh(parts)
    ensures a in parts && a.data in parts && b in parts && b.data in parts
  {
    a := new FixedBuffer(LARGE);
    b := new FixedBuffer(LARGE);
    parts := {a, a.data, b, b.data};
  }

  // The pieces of the backend's two regions.

  ghost function FirstHanded(s: Log): Log { s.(current := s.spare1, spare1 := None) }

  ghost function SecondHanded(s: Log): Log {
    if s.next.None? then s.(next := s.spare2, spare2 := None) else s
  }

  ghost function Trimmed(s: Log): Log { s.(batch := if |s.batch| > 2 then s.batch[..2] else s.batch) }

  ghost function FirstRefilled(s: Log): Log
    requires s.spare1.None? ==> s.batch != []
  {
    if s.spare1.None? then s.(spare1 := Some(""), batch := s.batch[..|s.batch| - 1]) else s
  }

  ghost function SecondRefilled(s: Log): Log
    requires s.spare2.None? ==> s.batch != []
  {
    if s.spare2.None? then s.(spare2 := Some(""), batch := s.batch[..|s.batch| - 1]) else s
  }

  lemma RefilledIsRecycled(s: Log)
    requires Taken(s) <= |s.batch|
    ensures SecondRefilled(FirstRefilled(Trimmed(s))).(batch := [], done := 0, pc := Test) == RecycleStep(s)
  {
  }

  class AsyncLogging {
    var running: bool
    var currentBuffer: FixedBuffer?
    var nextBuffer: FixedBuffer?
    var buffers: seq<FixedBuffer>
    // locals of threadFunc
    var newbuffer1: FixedBuffer?
    var newbuffer2: FixedBuffer?
    var buffersToWrite: seq<FixedBuffer>
    var written: nat
    var pc: Pc
    var output: seq<string>
    /** All buffers the logger has made, and their arrays. */
    ghost var pool: set<object>

    /** No buffer is in two of the pointers. */
    ghost predicate PointersApart()
      reads this
    {
      && Other(currentBuffer, nextBuffer) && Other(currentBuffer, newbuffer1) && Other(currentBuffer, newbuffer2)
      && Other(nextBuffer, newbuffer1) && Other(nextBuffer, newbuffer2) && Other(newbuffer1, newbuffer2)
    }

    /** No buffer of the row is in one of the pointers. */
    ghost predicate OffPointers(bs: seq<FixedBuffer>)
      reads this
    {
      OffRow(currentBuffer, bs) && OffRow(nextBuffer, bs) && OffRow(newbuffer1, bs) && OffRow(newbuffer2, bs)
    }

    /** No buffer is in two places. */
    ghost predicate OnePlaceEach()
      reads this
    {
      && PointersApart() && OffPointers(buffers) && OffPointers(buffersToWrite)
      && RowApart(buffers) && RowApart(buffersToWrite) && RowsApart(buffers, buffersToWrite)
    }

    /** A unique_ptr: null, or the owner of a buffer that holds `text`. */
    ghost predicate Slot(b: FixedBuffer?, text: Option<string>)
      reads this, pool
    {
      if b == null then text.None? else text.Some? && b in pool && b.data in pool && Good(b, text.value)
    }

    ghost predicate Row(bs: seq<FixedBuffer>, texts: seq<string>)
      reads this, pool
    {
      |bs| == |texts| && forall i | 0 <= i < |bs| :: bs[i] in pool && bs[i].data in pool && Good(bs[i], texts[i])
    }

    /** The fields, and the characters in the arrays, are the model's state. */
    ghost predicate Shows(s: Log)
      reads this, pool
    {
      && OnePlaceEach()
      && running == s.running && written == s.done && pc == s.pc && output == s.file
      && Slot(currentBuffer, s.current) && Slot(nextBuffer, s.next)
      && Slot(newbuffer1, s.spare1) && Slot(newbuffer2, s.spare2)
      && Row(buffers, s.full) && Row(buffersToWrite, s.batch)
    }

    constructor ()
      ensures Shows(Started()) && fresh(pool)
    {
      running, buffers, buffersToWrite, written, pc, output := true, [], [], 0, Test, [];
      var a, b, front := NewPair();
      var c, d, back := NewPair();
      currentBuffer, nextBuffer, newbuffer1, newbuffer2 := a, b, c, d;
      pool := front + back;
    }

    /** FixedBuffer::append on the current buffer. */
    method AppendHere(logline: string, ghost s: Log)
      requires Shows(s) && s.current.Some?
      modifies currentBuffer, Arrays([currentBuffer])
      ensures Shows(s.(current := Some(Appended(LARGE, s.current.value, logline))))
    {
      currentBuffer.Append(logline);
    }

    /** The current buffer moves to the end of the queue, which leaves a null pointer. */
    method Enqueue(ghost s: Log)
      requires Shows(s) && s.current.Some?
      modifies `currentBuffer, `buffers
      ensures Shows(Enqueued(s)) && currentBuffer == null
    {
      ghost var was := buffers;
      buffers := buffers + [currentBuffer];
      assert RowsApart(was, buffersToWrite) && OffRow(currentBuffer, buffersToWrite);
      currentBuffer := null;
    }

    /** The next buffer moves to the current one. */
    method TakeNext(ghost s: Log)
      requires Shows(s) && s.current.None? && s.next.Some?
      modifies `currentBuffer, `nextBuffer
      ensures Shows(s.(current := s.next, next := None)) && currentBuffer == old(nextBuffer)
    {
      currentBuffer := nextBuffer;
      nextBuffer := null;
    }

    method MakeCurrent(ghost s: Log)
      requires Shows(s) && s.current.None?
      modifies `currentBuffer, `pool
      ensures Shows(s.(current := Some(""))) && fresh(pool - old(pool))
      ensures currentBuffer != null && fresh(currentBuffer) && fresh(currentBuffer.data)
    {
      var made := new FixedBuffer(LARGE);
      currentBuffer := made;
      pool := pool + {made, made.data};
    }

    /** A current buffer again: the next one, or a new one. */
    method Replace(ghost s: Log)
      requires Shows(s) && s.current.None?
      modifies `currentBuffer, `nextBuffer, `pool
      ensures Shows(Replaced(s)) && fresh(pool - old(pool))
      ensures currentBuffer != null && (currentBuffer == old(nextBuffer) || (fresh(currentBuffer) && fresh(currentBuffer.data)))
    {
      if nextBuffer != null {
        TakeNext(s);
      } else {
        MakeCurrent(s);
      }
    }

    /** A producer touches at most the current and the next buffer: nothing the backend holds. */
    method Append(logline: string, ghost s: Log)
      requires Shows(s) && Safe(s, Event.Append(logline))
      modifies this, currentBuffer, nextBuffer, Arrays([currentBuffer, nextBuffer])
      ensures Shows(Apply(s, Event.Append(logline))) && fresh(pool - old(pool))
    {
      if currentBuffer.Avail() > |logline| {
        AppendHere(logline, s);
      } else {
        AppendSlow(logline, s);
      }
    }

    method AppendSlow(logline: string, ghost s: Log)
      requires Shows(s) && s.current.Some?
      modifies this, nextBuffer, Arrays([nextBuffer])
      ensures fresh(pool - old(pool))
      ensures
        var t := Replaced(Enqueued(s));
        Shows(t.(current := Some(Appended(LARGE, t.current.value, logline))))
    {
      Enqueue(s);
      Replace(Enqueued(s));
      AppendHere(logline, Replaced(Enqueued(s)));
    }

    method Stop(ghost s: Log)
      requires Shows(s)
      modifies `running
      ensures Shows(Apply(s, Event.Stop))
    {
      running := false;
    }

    /** The loop test of threadFunc. */
    method TestRunning(ghost s: Log)
      requires Shows(s) && s.pc == Test
      modifies `pc
      ensures Shows(Apply(s, if s.running then Enter else Leave))
    {
      pc := if running then Pc.Collect else Done;
    }

    /** The first spare becomes the current buffer … */
    method HandFirst(ghost s: Log)
      requires Shows(s) && s.current.None?
      modifies `currentBuffer, `newbuffer1
      ensures Shows(FirstHanded(s))
    {
      currentBuffer := newbuffer1;
      newbuffer1 := null;
    }

    /** … and the second the next one, if that is missing. */
    method HandSecond(ghost s: Log)
      requires Shows(s)
      modifies `nextBuffer, `newbuffer2
      ensures Shows(SecondHanded(s))
    {
      if nextBuffer == null {
        nextBuffer := newbuffer2;
        newbuffer2 := null;
      }
    }

    /** buffersToWrite.swap(buffers_) */
    method SwapRows(ghost s: Log)
      requires Shows(s) && s.batch == []
      modifies `buffers, `buffersToWrite, `written, `pc
      ensures Shows(s.(batch := s.full, full := [], done := 0, pc := Write))
    {
      buffers, buffersToWrite := buffersToWrite, buffers;
      written, pc := 0, Write;
    }

    /** The backend's lock region, after the wait. It moves pointers and touches no buffer. */
    method Collect(ghost s: Log)
      requires Shows(s) && s.pc == Pc.Collect && Safe(s, Swap) && s.batch == []
      modifies `currentBuffer, `nextBuffer, `buffers, `newbuffer1, `newbuffer2, `buffersToWrite, `written, `pc
      ensures Shows(Apply(s, Swap))
    {
      Enqueue(s);
      HandFirst(Enqueued(s));
      HandSecond(FirstHanded(Enqueued(s)));
      SwapRows(SecondHanded(FirstHanded(Enqueued(s))));
    }

    /** One output.append, without the mutex. */
    method WriteNext(ghost s: Log)
      requires Shows(s) && s.pc == Write && s.done < |s.batch|
      modifies `output, `written
      ensures Shows(Apply(s, WriteOne))
    {
      var buffer := buffersToWrite[written];
      assert Good(buffer, s.batch[s.done]);
      output := output + [buffer.data[..buffer.size]];
      written := written + 1;
    }

    /** Keep at most two buffers of the batch. */
    method Trim(ghost s: Log)
      requires Shows(s)
      modifies `buffersToWrite
      ensures Shows(Trimmed(s))
      ensures buffersToWrite <= old(buffersToWrite)
    {
      if |buffersToWrite| > 2 {
        buffersToWrite := buffersToWrite[..2];
      }
    }

    /** The last buffer of the batch moves to the first spare. */
    method BackToFirst(ghost s: Log)
      requires Shows(s) && s.batch != [] && s.spare1.None?
      modifies `newbuffer1, `buffersToWrite
      ensures Shows(s.(spare1 := Some(s.batch[|s.batch| - 1]), batch := s.batch[..|s.batch| - 1]))
      ensures newbuffer1 in old(buffersToWrite) && buffersToWrite <= old(buffersToWrite)
    {
      newbuffer1 := buffersToWrite[|buffersToWrite| - 1];
      buffersToWrite := buffersToWrite[..|buffersToWrite| - 1];
    }

    method BackToSecond(ghost s: Log)
      requires Shows(s) && s.batch != [] && s.spare2.None?
      modifies `newbuffer2, `buffersToWrite
      ensures Shows(s.(spare2 := Some(s.batch[|s.batch| - 1]), batch := s.batch[..|s.batch| - 1]))
      ensures newbuffer2 in old(buffersToWrite)
    {
      newbuffer2 := buffersToWrite[|buffersToWrite| - 1];
      buffersToWrite := buffersToWrite[..|buffersToWrite| - 1];
    }

    method ResetFirst(ghost s: Log)
      requires Shows(s) && s.spare1.Some?
      modifies newbuffer1
      ensures Shows(s.(spare1 := Some("")))
    {
      newbuffer1.Reset();
    }

    method ResetSecond(ghost s: Log)
      requires Shows(s) && s.spare2.Some?
      modifies newbuffer2
      ensures Shows(s.(spare2 := Some("")))
    {
      newbuffer2.Reset();
    }

    method RefillFirst(ghost s: Log)
      requires Shows(s) && (s.spare1.None? ==> s.batch != [])
      modifies `newbuffer1, `buffersToWrite, buffersToWrite
      ensures Shows(FirstRefilled(s)) && buffersToWrite <= old(buffersToWrite)
      ensures old(newbuffer1) == null ==> newbuffer1 in old(buffersToWrite)
    {
      if newbuffer1 == null {
        BackToFirst(s);
        ResetFirst(s.(spare1 := Some(s.batch[|s.batch| - 1]), batch := s.batch[..|s.batch| - 1]));
      }
    }

    method RefillSecond(ghost s: Log)
      requires Shows(s) && (s.spare2.None? ==> s.batch != [])
      modifies `newbuffer2, `buffersToWrite, buffersToWrite
      ensures Shows(SecondRefilled(s))
      ensures old(newbuffer2) == null ==> newbuffer2 in old(buffersToWrite)
    {
      if newbuffer2 == null {
        BackToSecond(s);
        ResetSecond(s.(spare2 := Some(s.batch[|s.batch| - 1]), batch := s.batch[..|s.batch| - 1]));
      }
    }

    /** buffersToWrite.clear() and back to the head of the loop. */
    method ClearBatch(ghost s: Log)
      requires Shows(s)
      modifies `buffersToWrite, `written, `pc
      ensures Shows(s.(batch := [], done := 0, pc := Test))
    {
      buffersToWrite, written, pc := [], 0, Test;
    }

    /** Trimming and recycling: only buffers of the batch are emptied, and all of them are in the
        file by then. */
    method Refill(ghost s: Log)
      requires Shows(s) && s.pc == Write && s.done >= |s.batch| && Safe(s, Recycle)
      modifies `newbuffer1, `newbuffer2, `buffersToWrite, `written, `pc, buffersToWrite
      ensures Shows(Apply(s, Recycle))
    {
      Trim(s);
      RefillFirst(Trimmed(s));
      RefillSecond(FirstRefilled(Trimmed(s)));
      RefilledIsRecycled(s);
      ClearBatch(SecondRefilled(FirstRefilled(Trimmed(s))));
    }

    /** Any enabled step of any thread. */
    method Perform(e: Event, ghost s: Log)
      requires Shows(s) && Inv(s) && Enabled(s, e) && Safe(s, e)
      modifies this, pool
      ensures Shows(Apply(s, e)) && fresh(pool - old(pool))
    {
      if e.Append? {
        Append(e.msg, s);
      } else {
        Step(e, s);
      }
    }

    /** Any step but an append. */
    method Step(e: Event, ghost s: Log)
      requires Shows(s) && Inv(s) && Enabled(s, e) && Safe(s, e) && !e.Append?
      modifies this, buffersToWrite
      ensures Shows(Apply(s, e)) && pool == old(pool)
    {
      match e
      case Stop => Stop(s);
      case Enter => TestRunning(s);
      case Leave => TestRunning(s);
      case Swap => Collect(s);
      case WriteOne => WriteNext(s);
      case Recycle => Refill(s);
    }
  }

  /** The objects follow every run of the model to the same file, which is a prefix of what the
      schedule appended. */
  method Drive(schedule: seq<Event>, ghost ss: seq<Log>) returns (file: seq<string>)
    requires IsRun(ss, schedule)
    ensures file == ss[|schedule|].file && Flat(file) <= Flat(Messages(schedule))
  {
    var logger := new AsyncLogging();
    for i := 0 to |schedule|
      invariant fresh(logger) && fresh(logger.pool) && logger.Shows(ss[i])
    {
      assert StepAt(ss, schedule, i);
      InvInRun(ss, schedule, i);
      logger.Perform(schedule[i], ss[i]);
    }
    file := logger.output;
    FileIsPrefixOfMessages(ss, schedule);
  }
}
