/**
 The asynchronous logger as a state machine. Producers append under the mutex; the backend
 thread swaps buffers out under the same mutex, writes them without it, and recycles them.
 Each lock region is one step, and the steps of the threads interleave freely.
 */
module AsyncLogModel {
  import opened Options
  import opened FixedBuffers

  /** Capacity of one large buffer. */
  const LARGE := 4096 * 1000

  /** Where the backend thread is in threadFunc. */
  datatype Pc = Test | Collect | Write | Done

  datatype Log = Log(
    running: bool,
    current: Option<string>,
    next: Option<string>,
    full: seq<string>,
    spare1: Option<string>,
    spare2: Option<string>,
    batch: seq<string>,
    done: nat,              // how many buffers of the batch are written
    pc: Pc,
    file: seq<string>,      // what output.append was called with, in order
    accepted: seq<string>,  // the messages that fit a buffer, in lock order
    cuts: seq<nat>)         // how many were accepted when each buffer was put into use

  function Started(): Log {
    Log(true, Some(""), Some(""), [], Some(""), Some(""), [], 0, Test, [], [], [0])
  }

  datatype Event =
    | Append(msg: string)  // any producer, one call of append
    | Stop                 // running_ is cleared
    | Enter                // the backend finds running_ set
    | Leave                // the backend finds running_ cleared
    | Swap                 // the backend's lock region, whether woken or timed out
    | WriteOne             // one output.append
    | Recycle              // after the last one: refill the spares

  /** Control: which steps the threads can take. A producer can always take the mutex. */
  predicate Enabled(s: Log, e: Event) {
    match e
    case Append(_) => true
    case Stop => true
    case Enter => s.pc == Test && s.running
    case Leave => s.pc == Test && !s.running
    case Swap => s.pc == Collect
    case WriteOne => s.pc == Write && s.done < |s.batch|
    case Recycle => s.pc == Write && s.done >= |s.batch|
  }

  /** Buffers the recycling step takes from the back of the (trimmed) batch. */
  function Taken(s: Log): nat {
    (if s.spare1.None? then 1 else 0) + if s.spare2.None? then 1 else 0
  }

  /** The step follows no null pointer and takes no element of an empty vector. */
  predicate Safe(s: Log, e: Event) {
    match e
    case Append(_) => s.current.Some?
    case Swap => s.current.Some?
    case Recycle => Taken(s) <= |s.batch|
    case _ => true
  }

  function Accept(s: Log, msg: string): seq<string> {
    if |msg| < LARGE then s.accepted + [msg] else s.accepted
  }

  /** The current buffer is moved to the queue … */
  function Enqueued(s: Log): Log
    requires s.current.Some?
  {
    s.(full := s.full + [s.current.value], current := None)
  }

  /** … and replaced by the next one or a new one. */
  function Replaced(s: Log): Log {
    s.(current := Some(if s.next.Some? then s.next.value else ""), next := None)
  }

  function AppendStep(s: Log, msg: string): Log
    requires s.current.Some?
  {
    if LARGE - |s.current.value| > |msg| then
      s.(current := Some(s.current.value + msg), accepted := Accept(s, msg))
    else
      var t := Replaced(Enqueued(s));
      t.(current := Some(Appended(LARGE, t.current.value, msg)),
         accepted := Accept(s, msg), cuts := s.cuts + [|s.accepted|])
  }

  function SwapStep(s: Log): Log
    requires s.current.Some?
  {
    s.(batch := s.full + [s.current.value], done := 0, full := [],
       current := s.spare1, spare1 := None,
       next := if s.next.None? then s.spare2 else s.next,
       spare2 := if s.next.None? then None else s.spare2,
       pc := Write, cuts := s.cuts + [|s.accepted|])
  }

  function RecycleStep(s: Log): Log {
    s.(spare1 := Some(if s.spare1.None? then "" else s.spare1.value),
       spare2 := Some(if s.spare2.None? then "" else s.spare2.value),
       batch := [], done := 0, pc := Test)
  }

  function Apply(s: Log, e: Event): Log
    requires Enabled(s, e) && Safe(s, e)
  {
    match e
    case Append(msg) => AppendStep(s, msg)
    case Stop => s.(running := false)
    case Enter => s.(pc := Collect)
    case Leave => s.(pc := Done)
    case Swap => SwapStep(s)
    case WriteOne => s.(file := s.file + [s.batch[s.done]], done := s.done + 1)
    case Recycle => RecycleStep(s)
  }

  ghost predicate StepAt(ss: seq<Log>, es: seq<Event>, i: nat)
    requires i < |es| < |ss|
  {
    Enabled(ss[i], es[i]) && Safe(ss[i], es[i]) && ss[i + 1] == Apply(ss[i], es[i])
  }

  ghost predicate IsRun(ss: seq<Log>, es: seq<Event>) {
    |ss| == |es| + 1 && ss[0] == Started() && forall i | 0 <= i < |es| :: StepAt(ss, es, i)
  }

  // ---------------------------------------------------------------- messages in buffers

  function Flat(parts: seq<string>): string {
    if parts == [] then "" else Flat(parts[..|parts| - 1]) + parts[|parts| - 1]
  }

  lemma FlatPlus(parts: seq<string>, m: string)
    ensures Flat(parts + [m]) == Flat(parts) + m
  {
    assert (parts + [m])[..|parts|] == parts;
  }

  lemma {:induction false} FlatConcat(a: seq<string>, b: seq<string>)
    ensures Flat(a + b) == Flat(a) + Flat(b)
  {
    if b == [] {
      assert a + b == a;
    } else {
      var n := |b| - 1;
      assert a + b == (a + b[..n]) + [b[n]];
      FlatPlus(a + b[..n], b[n]);
      FlatConcat(a, b[..n]);
    }
  }

  /** Where the messages of buffer `i` begin. */
  function Cut(cuts: seq<nat>, msgs: seq<string>, i: nat): nat {
    if i < |cuts| && cuts[i] <= |msgs| then cuts[i] else |msgs|
  }

  /** Buffer `i` holds, whole and in order, the messages between its cut and the next. */
  predicate Holds(line: seq<string>, msgs: seq<string>, cuts: seq<nat>, i: nat)
    requires i < |line|
  {
    Cut(cuts, msgs, i) <= Cut(cuts, msgs, i + 1) && line[i] == Flat(msgs[Cut(cuts, msgs, i)..Cut(cuts, msgs, i + 1)])
  }

  /** The buffers hold the messages in order, each message whole in one buffer. */
  ghost predicate Packs(line: seq<string>, msgs: seq<string>, cuts: seq<nat>) {
    && |cuts| == |line| > 0 && cuts[0] == 0
    && (forall i | 0 <= i < |cuts| :: cuts[i] <= |msgs|)
    && (forall i | 0 <= i < |line| :: Holds(line, msgs, cuts, i))
  }

  /** One more message in the last buffer. */
  lemma PacksMessage(front: seq<string>, last: string, msgs: seq<string>, cuts: seq<nat>, m: string)
    requires Packs(front + [last], msgs, cuts)
    ensures Packs(front + [last + m], msgs + [m], cuts)
  {
    var was, now, all := front + [last], front + [last + m], msgs + [m];
    forall i | 0 <= i < |now| ensures Holds(now, all, cuts, i) {
      assert Holds(was, msgs, cuts, i);
      var a := Cut(cuts, msgs, i);
      if i < |front| {
        assert all[a..Cut(cuts, all, i + 1)] == msgs[a..Cut(cuts, msgs, i + 1)];
      } else {
        assert all[a..|all|] == msgs[a..] + [m];
        FlatPlus(msgs[a..], m);
        assert msgs[a..|msgs|] == msgs[a..];
      }
    }
  }

  /** One more buffer, empty. */
  lemma PacksEmpty(line: seq<string>, msgs: seq<string>, cuts: seq<nat>)
    requires Packs(line, msgs, cuts)
    ensures Packs(line + [""], msgs, cuts + [|msgs|])
  {
    var now, cuts' := line + [""], cuts + [|msgs|];
    forall i | 0 <= i < |now| ensures Holds(now, msgs, cuts', i) {
      if i < |line| {
        assert Holds(line, msgs, cuts, i);
        assert Cut(cuts', msgs, i + 1) == Cut(cuts, msgs, i + 1);
      }
    }
  }

  /** The first buffers hold exactly the messages up to the next cut. */
  lemma {:induction false} PacksPrefix(line: seq<string>, msgs: seq<string>, cuts: seq<nat>, n: nat)
    requires Packs(line, msgs, cuts) && n <= |line|
    ensures Flat(line[..n]) == Flat(msgs[..Cut(cuts, msgs, n)])
  {
    if n > 0 {
      var a, b := Cut(cuts, msgs, n - 1), Cut(cuts, msgs, n);
      PacksPrefix(line, msgs, cuts, n - 1);
      assert Holds(line, msgs, cuts, n - 1);
      assert line[..n] == line[..n - 1] + [line[n - 1]];
      FlatPlus(line[..n - 1], line[n - 1]);
      assert msgs[..b] == msgs[..a] + msgs[a..b];
      FlatConcat(msgs[..a], msgs[a..b]);
    }
  }

  // ---------------------------------------------------------------- the invariant

  function Rest(s: Log): seq<string> {
    if s.done <= |s.batch| then s.batch[s.done..] else []
  }

  /** The buffers in front of the current one, oldest first. */
  function Front(s: Log): seq<string> {
    s.file + Rest(s) + s.full
  }

  /** How many messages were accepted before the last swap. */
  function Mark(s: Log): nat {
    Cut(s.cuts, s.accepted, |s.file| + |Rest(s)|)
  }

  /** Which buffers are there, and which of them are empty. */
  predicate Stocked(s: Log) {
    && s.current.Some? && s.done <= |s.batch|
    && (s.next.None? ==> s.full != []) && (s.next.Some? ==> s.next.value == "")
    && (s.spare1.Some? ==> s.spare1.value == "") && (s.spare2.Some? ==> s.spare2.value == "")
    && (s.pc == Write ==> s.spare1.None? && |s.batch| >= 1 && (s.spare2.None? ==> |s.batch| >= 2))
    && (s.pc != Write ==> s.spare1.Some? && s.spare2.Some? && s.batch == [])
  }

  /** Every accepted message is in its place between the file and the current buffer. */
  ghost predicate Packed(s: Log)
    requires s.current.Some?
  {
    Packs(Front(s) + [s.current.value], s.accepted, s.cuts)
  }

  ghost predicate Inv(s: Log) { Stocked(s) && Packed(s) }

  lemma InvStart()
    ensures Inv(Started())
  {
    assert Front(Started()) + [""] == [""];
    assert Holds([""], [], [0], 0);
  }

  /** A state is always ready for the next step its control allows, and stays stocked. */
  lemma StockedStep(s: Log, e: Event)
    requires Stocked(s) && Enabled(s, e)
    ensures Safe(s, e) && Stocked(Apply(s, e))
  {
  }

  lemma PackedAppend(s: Log, msg: string)
    requires Inv(s)
    ensures Packed(AppendStep(s, msg))
  {
    var t := AppendStep(s, msg);
    if LARGE - |s.current.value| > |msg| {
      PacksMessage(Front(s), s.current.value, s.accepted, s.cuts, msg);
      assert Front(t) == Front(s);
    } else {
      var queue := Front(s) + [s.current.value];
      assert Front(t) == queue;
      PacksEmpty(queue, s.accepted, s.cuts);
      if |msg| < LARGE {
        PacksMessage(queue, "", s.accepted, t.cuts, msg);
        assert "" + msg == msg;
      }
    }
  }

  lemma PackedSwap(s: Log)
    requires Inv(s) && s.pc == Collect
    ensures Packed(SwapStep(s))
  {
    var t := SwapStep(s);
    assert Front(t) == Front(s) + [s.current.value];
    PacksEmpty(Front(t), s.accepted, s.cuts);
  }

  lemma PackedWrite(s: Log)
    requires Inv(s) && Enabled(s, WriteOne)
    ensures Packed(Apply(s, WriteOne))
  {
    var t := Apply(s, WriteOne);
    assert s.file + Rest(s) == t.file + Rest(t);
  }

  lemma PackedRecycle(s: Log)
    requires Inv(s) && Enabled(s, Recycle)
    ensures Packed(RecycleStep(s))
  {
    assert Rest(s) == Rest(RecycleStep(s)) == [];
  }

  lemma InvStep(s: Log, e: Event)
    requires Inv(s) && Enabled(s, e)
    ensures Safe(s, e) && Inv(Apply(s, e))
  {
    StockedStep(s, e);
    match e
    case Append(msg) => PackedAppend(s, msg);
    case Swap => PackedSwap(s);
    case WriteOne => PackedWrite(s);
    case Recycle => PackedRecycle(s);
    case _ =>
  }

  // ---------------------------------------------------------------- over whole runs

  lemma {:induction false} InvInRun(ss: seq<Log>, es: seq<Event>, i: nat)
    requires IsRun(ss, es) && i < |ss|
    ensures Inv(ss[i])
  {
    if i == 0 {
      InvStart();
    } else {
      InvInRun(ss, es, i - 1);
      assert StepAt(ss, es, i - 1);
      InvStep(ss[i - 1], es[i - 1]);
    }
  }

  /** No interleaving reaches a null buffer or pops an empty vector, and whenever the backend
      is at the head of its loop both spares are there and empty. */
  lemma NeverFaults(ss: seq<Log>, es: seq<Event>, i: nat, e: Event)
    requires IsRun(ss, es) && i < |ss|
    ensures Enabled(ss[i], e) ==> Safe(ss[i], e)
    ensures ss[i].next.None? ==> ss[i].full != []
    ensures ss[i].next.Some? ==> ss[i].next.value == ""
    ensures ss[i].pc == Test ==> ss[i].spare1 == ss[i].spare2 == Some("")
  {
    InvInRun(ss, es, i);
  }

  /** The end of the file is what has been written of the batch. */
  predicate Recorded(s: Log) {
    s.done <= |s.batch| && s.done <= |s.file| && s.file[|s.file| - s.done..] == s.batch[..s.done]
  }

  lemma RecordedStep(s: Log, e: Event)
    requires Recorded(s) && Enabled(s, e) && Safe(s, e)
    ensures Recorded(Apply(s, e))
  {
    if e == WriteOne {
      var t := Apply(s, e);
      assert t.file[|t.file| - t.done..] == s.file[|s.file| - s.done..] + [s.batch[s.done]];
      assert t.batch[..t.done] == s.batch[..s.done] + [s.batch[s.done]];
    }
  }

  /** In every state of every run; so what the backend empties to use again is in the file. */
  lemma {:induction false} BatchIsWritten(ss: seq<Log>, es: seq<Event>, i: nat)
    requires IsRun(ss, es) && i < |ss|
    ensures Recorded(ss[i])
  {
    if i > 0 {
      BatchIsWritten(ss, es, i - 1);
      assert StepAt(ss, es, i - 1);
      RecordedStep(ss[i - 1], es[i - 1]);
    }
  }

  /** Nothing is lost, repeated or reordered: what is in the file, in the taken batch, in the
      queue and in the current buffer is, in this order, what was accepted. */
  lemma NothingLost(ss: seq<Log>, es: seq<Event>, i: nat)
    requires IsRun(ss, es) && i < |ss|
    ensures ss[i].current.Some?
    ensures
      var s := ss[i];
      Flat(s.file) + Flat(Rest(s)) + Flat(s.full) + s.current.value == Flat(s.accepted)
  {
    InvInRun(ss, es, i);
    var s := ss[i];
    var line := Front(s) + [s.current.value];
    PacksPrefix(line, s.accepted, s.cuts, |line|);
    assert line[..|line|] == line && s.accepted[..|s.accepted|] == s.accepted;
    FlatPlus(Front(s), s.current.value);
    FlatConcat(s.file + Rest(s), s.full);
    FlatConcat(s.file, Rest(s));
  }

  /** The file is at all times the first so many messages, none of them split between two
      writes: write `k` is the messages between two cuts. */
  lemma FileIsPrefix(ss: seq<Log>, es: seq<Event>, i: nat)
    requires IsRun(ss, es) && i < |ss|
    ensures
      var s := ss[i];
      && Flat(s.file) == Flat(s.accepted[..Cut(s.cuts, s.accepted, |s.file|)]) <= Flat(s.accepted)
      && forall k | 0 <= k < |s.file| :: Holds(s.file, s.accepted, s.cuts, k)
  {
    InvInRun(ss, es, i);
    var s := ss[i];
    var n := Cut(s.cuts, s.accepted, |s.file|);
    var line := Front(s) + [s.current.value];
    assert line[..|s.file|] == s.file;
    PacksPrefix(line, s.accepted, s.cuts, |s.file|);
    FlatConcat(s.accepted[..n], s.accepted[n..]);
    assert s.accepted[..n] + s.accepted[n..] == s.accepted;
    forall k | 0 <= k < |s.file| ensures Holds(s.file, s.accepted, s.cuts, k) {
      assert Holds(line, s.accepted, s.cuts, k);
    }
  }

  /** The messages a schedule appends that fit a buffer, in order. */
  function Messages(es: seq<Event>): seq<string> {
    if es == [] then [] else
      var rest := Messages(es[..|es| - 1]);
      match es[|es| - 1]
      case Append(msg) => if |msg| < LARGE then rest + [msg] else rest
      case _ => rest
  }

  lemma {:induction false} AcceptedAreMessages(ss: seq<Log>, es: seq<Event>, i: nat)
    requires IsRun(ss, es) && i < |ss|
    ensures ss[i].accepted == Messages(es[..i])
  {
    if i > 0 {
      AcceptedAreMessages(ss, es, i - 1);
      assert StepAt(ss, es, i - 1);
      assert es[..i][..i - 1] == es[..i - 1];
    }
  }

  /** So what is written is, at the end of any schedule, a prefix of what the schedule appended. */
  lemma FileIsPrefixOfMessages(ss: seq<Log>, es: seq<Event>)
    requires IsRun(ss, es)
    ensures Flat(ss[|es|].file) <= Flat(Messages(es))
  {
    FileIsPrefix(ss, es, |es|);
    AcceptedAreMessages(ss, es, |es|);
    assert es[..|es|] == es;
  }

  /** Back at the head of its loop the backend has written everything accepted before its
      last swap; so when it has left, the file is complete exactly if nothing but empty
      messages came after that. */
  lemma WrittenAtHead(ss: seq<Log>, es: seq<Event>, i: nat)
    requires IsRun(ss, es) && i < |ss| && ss[i].pc != Write
    ensures
      var s := ss[i];
      && Flat(s.file) == Flat(s.accepted[..Mark(s)])
      && (Flat(s.file) == Flat(s.accepted) <==> Flat(s.accepted[Mark(s)..]) == "")
  {
    FileIsPrefix(ss, es, i);
    InvInRun(ss, es, i);
    var s := ss[i];
    assert s.file + Rest(s) == s.file;
    FlatConcat(s.accepted[..Mark(s)], s.accepted[Mark(s)..]);
    assert s.accepted[..Mark(s)] + s.accepted[Mark(s)..] == s.accepted;
  }

  /** How many buffers are out of the queue: only a swap changes that. */
  lemma OutOfQueue(s: Log, e: Event)
    requires Stocked(s) && Enabled(s, e) && Safe(s, e)
    ensures
      var t := Apply(s, e);
      |t.file| + |Rest(t)| == if e == Swap then |Front(s)| + 1 else |s.file| + |Rest(s)|
  {
    var t := Apply(s, e);
    match e
    case Append(msg) =>
      var u := AppendStep(s, msg);
      assert u.file == s.file && u.batch == s.batch && u.done == s.done;
    case Swap => assert Rest(t) == s.full + [s.current.value];
    case WriteOne => assert |Rest(t)| == |Rest(s)| - 1;
    case Recycle => assert Rest(s) == Rest(t) == [];
    case _ =>
  }

  lemma CutStays(s: Log, e: Event, n: nat)
    requires Inv(s) && Enabled(s, e) && Safe(s, e) && n < |s.cuts|
    ensures var t := Apply(s, e); Cut(t.cuts, t.accepted, n) == Cut(s.cuts, s.accepted, n) == s.cuts[n]
  {
  }

  /** The mark is where the last swap left it: a swap marks all that was accepted so far, and no
      other step moves the mark. */
  lemma MarkIsLastSwap(ss: seq<Log>, es: seq<Event>, i: nat)
    requires IsRun(ss, es) && i < |es|
    ensures Mark(ss[i + 1]) == if es[i] == Swap then |ss[i].accepted| else Mark(ss[i])
  {
    InvInRun(ss, es, i);
    assert StepAt(ss, es, i);
    OutOfQueue(ss[i], es[i]);
    if es[i] != Swap {
      CutStays(ss[i], es[i], |ss[i].file| + |Rest(ss[i])|);
    }
  }

  /** Where a message goes: behind what the current buffer holds if strictly more room is left than
      it takes; else that buffer joins the queue and the message starts the next one, unless it is
      too long for any. The backend's side does not change. */
  lemma AppendGoes(ss: seq<Log>, es: seq<Event>, i: nat)
    requires IsRun(ss, es) && i < |es| && es[i].Append?
    ensures ss[i].current.Some? && ss[i + 1].current.Some?
    ensures
      var s, t, m := ss[i], ss[i + 1], es[i].msg;
      var c := s.current.value;
      && (|c| + |m| < LARGE ==>
           t == s.(current := Some(c + m), accepted := s.accepted + [m]))
      && (|c| + |m| >= LARGE ==>
           && t.full == s.full + [c] && t.next.None? && t.current.value == (if |m| < LARGE then m else "")
           && t.accepted == (if |m| < LARGE then s.accepted + [m] else s.accepted)
           && t == s.(full := t.full, next := t.next, current := t.current, accepted := t.accepted, cuts := t.cuts))
  {
    InvInRun(ss, es, i);
    assert StepAt(ss, es, i);
    assert "" + es[i].msg == es[i].msg;
  }

  /** A buffer waits in the queue only because some message did not fit behind what it holds. */
  lemma {:induction false} QueuedWhenFull(ss: seq<Log>, es: seq<Event>, i: nat, k: nat) returns (j: nat)
    requires IsRun(ss, es) && i < |ss| && k < |ss[i].full|
    ensures j < i && es[j].Append? && ss[j].current == Some(ss[i].full[k])
    ensures |ss[i].full[k]| + |es[j].msg| >= LARGE
  {
    var s, e := ss[i - 1], es[i - 1];
    assert StepAt(ss, es, i - 1);
    if e.Append? {
      AppendGoes(ss, es, i - 1);
    }
    if k < |s.full| {
      j := QueuedWhenFull(ss, es, i - 1, k);
    } else {
      j := i - 1;
    }
  }

  /** A message can be left behind: appended, then stopped before the backend swaps. */
  lemma StopCanLose() returns (ss: seq<Log>, es: seq<Event>)
    ensures IsRun(ss, es) && ss[|es|].pc == Done && ss[|es|].file == [] && ss[|es|].accepted == ["x"]
  {
    var s0 := Started();
    var s1 := AppendStep(s0, "x");
    var s2 := s1.(running := false);
    var s3 := s2.(pc := Done);
    ss, es := [s0, s1, s2, s3], [Append("x"), Stop, Leave];
    assert StepAt(ss, es, 0) && StepAt(ss, es, 1) && StepAt(ss, es, 2);
  }
}
