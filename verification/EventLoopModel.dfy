/**
 The event loop's task queue and its wakeup protocol. Any number of threads queue functors
 or ask the loop to quit; the loop thread blocks in poll until its eventfd is readable.
 Pushing a functor and writing the eventfd are separate steps, and so are polling,
 draining the eventfd and taking the queue.
 */
module EventLoopModel {

  type Thread = nat
  type Functor = nat

  /** The thread that owns the loop. */
  const LOOP: Thread := 0

  /** The largest value an eventfd counter holds; a write beyond it fails. */
  const EFD_MAX := 0xFFFF_FFFF_FFFF_FFFE

  /** Where the loop thread is: at the loop test, in poll, handling the active channels (with
      the wakeup channel still to come or not), about to take the queue, running functors. */
  datatype Pc = Test | Poll | Dispatch(wake: bool) | Take | Run | Exited

  datatype Loop = Loop(
    pc: Pc,
    quit: bool,
    calling: bool,             // callingPendingFunctors_
    pending: seq<Functor>,
    batch: seq<Functor>,       // the rest of the vector doPendingFunctors swapped out
    eventfd: nat,
    waking: set<Thread>,       // threads that will write the eventfd next
    queued: seq<Functor>,      // every functor queued so far
    executed: seq<Functor>,    // every functor executed so far
    mark: nat)                 // how many were queued when the queue was last taken

  function Initial(): Loop {
    Loop(Test, false, false, [], [], 0, {}, [], [], 0)
  }

  datatype Event =
    | Push(thread: Thread, functor: Functor)  // the locked part of queueInLoop
    | Quit(thread: Thread)                    // quit_ = true
    | Wakeup(thread: Thread)                  // the write to the eventfd
    | TestQuit
    | PollReturn(wake: bool)                  // whether the wakeup channel is among the active ones
    | Drain                                   // handleRead of the wakeup channel
    | EndDispatch                             // callingPendingFunctors_ = true
    | TakeQueue                               // the swap under the mutex
    | RunOne
    | EndRun                                  // callingPendingFunctors_ = false

  /** The loop thread runs callbacks only while dispatching or running functors. */
  predicate InCallback(s: Loop) { s.pc.Dispatch? || s.pc == Run }

  predicate Enabled(s: Loop, e: Event) {
    match e
    case Push(t, _) => t !in s.waking && (t == LOOP ==> InCallback(s))
    case Quit(t) => t !in s.waking && (t == LOOP ==> InCallback(s))
    case Wakeup(t) => t in s.waking
    case TestQuit => s.pc == Test
    case PollReturn(wake) => s.pc == Poll && (wake ==> s.eventfd > 0)
    case Drain => s.pc == Dispatch(true) && LOOP !in s.waking
    case EndDispatch => s.pc == Dispatch(false) && LOOP !in s.waking
    case TakeQueue => s.pc == Take
    case RunOne => s.pc == Run && s.batch != [] && LOOP !in s.waking
    case EndRun => s.pc == Run && s.batch == [] && LOOP !in s.waking
  }

  function Apply(s: Loop, e: Event): Loop
    requires Enabled(s, e)
  {
    match e
    case Push(t, f) =>
      s.(pending := s.pending + [f], queued := s.queued + [f],
         waking := if t != LOOP || s.calling then s.waking + {t} else s.waking)
    case Quit(t) => s.(quit := true, waking := if t != LOOP then s.waking + {t} else s.waking)
    case Wakeup(t) =>
      s.(waking := s.waking - {t}, eventfd := if s.eventfd < EFD_MAX then s.eventfd + 1 else s.eventfd)
    case TestQuit => s.(pc := if s.quit then Exited else Poll)
    case PollReturn(wake) => s.(pc := Dispatch(wake))
    case Drain => s.(eventfd := 0, pc := Dispatch(false))
    case EndDispatch => s.(calling := true, pc := Take)
    case TakeQueue => s.(batch := s.pending, pending := [], mark := |s.queued|, pc := Run)
    case RunOne => s.(executed := s.executed + [s.batch[0]], batch := s.batch[1..])
    case EndRun => s.(calling := false, pc := Test)
  }

  ghost predicate StepAt(ss: seq<Loop>, es: seq<Event>, i: nat)
    requires i < |es| < |ss|
  {
    Enabled(ss[i], es[i]) && ss[i + 1] == Apply(ss[i], es[i])
  }

  ghost predicate IsRun(ss: seq<Loop>, es: seq<Event>) {
    |ss| == |es| + 1 && ss[0] == Initial() && forall i | 0 <= i < |es| :: StepAt(ss, es, i)
  }

  // ---------------------------------------------------------------- the invariant

  /** Something will make poll return: the counter is up, or a thread is about to raise it. */
  ghost predicate WillWake(s: Loop) { s.eventfd > 0 || s.waking != {} }

  ghost predicate Inv(s: Loop) {
    && (s.calling <==> s.pc == Take || s.pc == Run)
    && (LOOP in s.waking ==> s.pc == Run)
    && (s.pc in {Test, Poll, Run} && s.pending != [] ==> WillWake(s))
    && (s.pc == Poll && s.quit ==> WillWake(s))
    && s.mark <= |s.queued| && s.executed + s.batch == s.queued[..s.mark]
    && s.pending == s.queued[s.mark..]
    && (s.pc != Run ==> s.batch == [])
  }

  lemma PushKeeps(s: Loop, t: Thread, f: Functor)
    requires Inv(s) && Enabled(s, Push(t, f))
    ensures Inv(Apply(s, Push(t, f)))
  {
    var r := Apply(s, Push(t, f));
    assert r.queued[..s.mark] == s.queued[..s.mark];
    assert r.queued[s.mark..] == s.queued[s.mark..] + [f];
    assert t in r.waking || t == LOOP;
  }

  lemma TakeKeeps(s: Loop)
    requires Inv(s) && Enabled(s, TakeQueue)
    ensures Inv(Apply(s, TakeQueue))
  {
    var t := Apply(s, TakeQueue);
    assert s.queued == s.queued[..s.mark] + s.queued[s.mark..];
    assert t.queued[..t.mark] == t.queued;
  }

  lemma RunKeeps(s: Loop)
    requires Inv(s) && Enabled(s, RunOne)
    ensures Inv(Apply(s, RunOne))
  {
    var t := Apply(s, RunOne);
    assert t.executed + t.batch == s.executed + s.batch;
  }

  lemma InvStep(s: Loop, e: Event)
    requires Inv(s) && Enabled(s, e)
    ensures Inv(Apply(s, e))
  {
    match e
    case Push(t, f) => PushKeeps(s, t, f);
    case Quit(t) => assert t in Apply(s, e).waking || t == LOOP;
    case TakeQueue => TakeKeeps(s);
    case RunOne => RunKeeps(s);
    case _ =>
  }

  lemma {:induction false} InvInRun(ss: seq<Loop>, es: seq<Event>, i: nat)
    requires IsRun(ss, es) && i < |ss|
    ensures Inv(ss[i])
  {
    if i > 0 {
      InvInRun(ss, es, i - 1);
      assert StepAt(ss, es, i - 1);
      InvStep(ss[i - 1], es[i - 1]);
    }
  }

  // ---------------------------------------------------------------- what it promises

  /** No lost wakeup: a loop about to block in poll with work or a quit request pending has a
      readable eventfd, or some thread is still on its way to make it so. */
  lemma NoLostWakeup(ss: seq<Loop>, es: seq<Event>, i: nat)
    requires IsRun(ss, es) && i < |ss|
    requires ss[i].pc == Poll && (ss[i].pending != [] || ss[i].quit)
    ensures Enabled(ss[i], PollReturn(true)) || exists t :: t in ss[i].waking && Enabled(ss[i], Wakeup(t))
  {
    InvInRun(ss, es, i);
    if ss[i].eventfd == 0 {
      var t: Thread :| t in ss[i].waking;
      assert Enabled(ss[i], Wakeup(t));
    }
  }

  /** Every queued functor is executed at most once, and in the order of the queue. */
  lemma ExecutedInOrder(ss: seq<Loop>, es: seq<Event>, i: nat)
    requires IsRun(ss, es) && i < |ss|
    ensures ss[i].executed + ss[i].batch + ss[i].pending == ss[i].queued
  {
    InvInRun(ss, es, i);
    var s := ss[i];
    assert s.queued[..s.mark] + s.queued[s.mark..] == s.queued;
  }

  /** Histories only grow, and so does the mark. */
  lemma {:induction false} Monotone(ss: seq<Loop>, es: seq<Event>, i: nat, j: nat)
    requires IsRun(ss, es) && i <= j < |ss|
    ensures ss[i].queued <= ss[j].queued && ss[i].executed <= ss[j].executed && ss[i].mark <= ss[j].mark
  {
    if i < j {
      Monotone(ss, es, i, j - 1);
      InvInRun(ss, es, j - 1);
      assert StepAt(ss, es, j - 1);
    }
  }

  /** What was queued before the queue was taken has run by the end of that iteration, at its
      place in the queue order, and stays run. */
  lemma QueuedBeforeTakeRuns(ss: seq<Loop>, es: seq<Event>, i: nat, j: nat, p: nat)
    requires IsRun(ss, es) && i < j < |ss|
    requires es[i] == TakeQueue && ss[j].pc == Test && p < |ss[i].queued|
    ensures p < |ss[j].executed| && ss[j].executed[p] == ss[i].queued[p]
  {
    assert StepAt(ss, es, i);
    Monotone(ss, es, i, j);
    Monotone(ss, es, i + 1, j);
    InvInRun(ss, es, j);
    assert ss[j].executed == ss[j].queued[..ss[j].mark];
  }

  /** Functors queued meanwhile do not join the batch being run: from any state of an
      iteration's run phase, the phase executes exactly its batch and can last no longer. */
  lemma {:induction false} BatchIsFixed(ss: seq<Loop>, es: seq<Event>, i: nat, j: nat)
    requires IsRun(ss, es) && i <= j < |ss|
    requires forall k | i <= k <= j :: ss[k].pc == Run
    ensures |ss[j].batch| <= |ss[i].batch|
    ensures ss[i].batch == ss[i].batch[..|ss[i].batch| - |ss[j].batch|] + ss[j].batch
    ensures ss[j].executed == ss[i].executed + ss[i].batch[..|ss[i].batch| - |ss[j].batch|]
  {
    if i < j {
      BatchIsFixed(ss, es, i, j - 1);
      var s, t := ss[j - 1], ss[j];
      assert StepAt(ss, es, j - 1);
      var n := |ss[i].batch| - |s.batch|;
      if es[j - 1] == RunOne {
        assert ss[i].batch[..n + 1] == ss[i].batch[..n] + [s.batch[0]];
      }
    }
  }

  /** Since the loop was about to block, either it has not yet taken the queue again, or it has
      taken everything that was queued then. */
  lemma {:induction false} TakenSincePoll(ss: seq<Loop>, es: seq<Event>, i: nat, j: nat)
    requires IsRun(ss, es) && i <= j < |ss| && ss[i].pc == Poll
    ensures ss[j].pc == Poll || ss[j].pc.Dispatch? || ss[j].pc == Take || ss[j].mark >= |ss[i].queued|
  {
    if i < j {
      TakenSincePoll(ss, es, i, j - 1);
      Monotone(ss, es, i, j - 1);
      Monotone(ss, es, j - 1, j);
      assert StepAt(ss, es, j - 1);
    }
  }

  /** Whatever is queued when the loop is about to block has been executed, in every run, when the
      loop next finishes a batch. */
  lemma NextIterationRunsIt(ss: seq<Loop>, es: seq<Event>, i: nat, j: nat)
    requires IsRun(ss, es) && i < j < |ss| && ss[i].pc == Poll && es[j - 1] == EndRun
    ensures ss[i].queued <= ss[j].executed
  {
    assert StepAt(ss, es, j - 1);
    TakenSincePoll(ss, es, i, j);
    InvInRun(ss, es, j);
    Monotone(ss, es, i, j);
    assert ss[j].executed == ss[j].queued[..ss[j].mark];
  }

  /** A quit request is never forgotten. */
  lemma {:induction false} QuitStays(ss: seq<Loop>, es: seq<Event>, i: nat, j: nat)
    requires IsRun(ss, es) && i <= j < |ss| && ss[i].quit
    ensures ss[j].quit
  {
    if i < j {
      QuitStays(ss, es, i, j - 1);
      assert StepAt(ss, es, j - 1);
    }
  }

  /** In every run, the next loop test after a quit request ends the loop, and an ended loop stays
      ended. */
  lemma QuitEndsLoop(ss: seq<Loop>, es: seq<Event>, i: nat, j: nat)
    requires IsRun(ss, es) && i < j < |ss| && ss[i].quit && es[j - 1] == TestQuit
    ensures ss[j].pc == Exited
  {
    QuitStays(ss, es, i, j - 1);
    assert StepAt(ss, es, j - 1);
  }

  // ---------------------------------------------------------------- wakeups are used up

  function Min(a: nat, b: nat): nat { if a < b then a else b }

  /** How many wakeups there were since the eventfd was last read. */
  function Wakeups(es: seq<Event>, i: nat): nat
    requires i <= |es|
  {
    if i == 0 || es[i - 1].Drain? then 0
    else Wakeups(es, i - 1) + if es[i - 1].Wakeup? then 1 else 0
  }

  /** The eventfd counts the wakeups since it was last read, as far as it can count. */
  lemma {:induction false} EventfdCounts(ss: seq<Loop>, es: seq<Event>, i: nat)
    requires IsRun(ss, es) && i < |ss|
    ensures ss[i].eventfd == Min(Wakeups(es, i), EFD_MAX)
  {
    if i > 0 {
      EventfdCounts(ss, es, i - 1);
      assert StepAt(ss, es, i - 1);
    }
  }

  lemma {:induction false} SomeWakeup(es: seq<Event>, i: nat) returns (k: nat)
    requires i <= |es| && Wakeups(es, i) > 0
    ensures k < i && es[k].Wakeup? && forall j | k < j < i :: !es[j].Drain?
  {
    if es[i - 1].Wakeup? {
      k := i - 1;
    } else {
      k := SomeWakeup(es, i - 1);
    }
  }

  /** No spurious wakeup: poll reports the wakeup channel only if some thread has written the
      eventfd since it was last read. */
  lemma NoSpuriousWakeup(ss: seq<Loop>, es: seq<Event>, i: nat) returns (k: nat)
    requires IsRun(ss, es) && i < |ss| && ss[i].pc == Poll && Enabled(ss[i], PollReturn(true))
    ensures k < i && es[k].Wakeup? && forall j | k < j < i :: !es[j].Drain?
  {
    EventfdCounts(ss, es, i);
    k := SomeWakeup(es, i);
  }

  /** The step is a request that has to wake the loop: one of another thread, or a functor queued
      while functors run. */
  predicate Wakes(s: Loop, e: Event) {
    match e
    case Push(t, _) => t != LOOP || s.pc == Take || s.pc == Run
    case Quit(t) => t != LOOP
    case _ => false
  }

  /** How many such requests there were … */
  ghost function Requests(ss: seq<Loop>, es: seq<Event>, i: nat): nat
    requires i <= |es| < |ss|
  {
    if i == 0 then 0 else Requests(ss, es, i - 1) + if Wakes(ss[i - 1], es[i - 1]) then 1 else 0
  }

  /** … and how many wakeups. */
  function Writes(es: seq<Event>, i: nat): nat
    requires i <= |es|
  {
    if i == 0 then 0 else Writes(es, i - 1) + if es[i - 1].Wakeup? then 1 else 0
  }

  lemma WakingStep(s: Loop, e: Event)
    requires Inv(s) && Enabled(s, e)
    ensures |Apply(s, e).waking| ==
            |s.waking| + (if Wakes(s, e) then 1 else 0) - if e.Wakeup? then 1 else 0
  {
    if e.Wakeup? {
      assert |s.waking - {e.thread}| == |s.waking| - 1;
    }
  }

  /** Every request that has to wake the loop causes exactly one write of the eventfd, and nothing
      else does: the writes so far and the threads about to write are the requests so far. */
  lemma {:induction false} OneWakeupEach(ss: seq<Loop>, es: seq<Event>, i: nat)
    requires IsRun(ss, es) && i < |ss|
    ensures Writes(es, i) + |ss[i].waking| == Requests(ss, es, i)
  {
    if i > 0 {
      OneWakeupEach(ss, es, i - 1);
      InvInRun(ss, es, i - 1);
      assert StepAt(ss, es, i - 1);
      WakingStep(ss[i - 1], es[i - 1]);
    }
  }

  // ---------------------------------------------------------------- progress

  /** Any run can be extended by an enabled step. */
  lemma ExtendRun(ss: seq<Loop>, es: seq<Event>, e: Event) returns (ss': seq<Loop>, es': seq<Event>)
    requires IsRun(ss, es) && Enabled(ss[|es|], e)
    ensures IsRun(ss', es') && es' == es + [e] && ss'[|es'|] == Apply(ss[|es|], e)
  {
    ss', es' := ss + [Apply(ss[|es|], e)], es + [e];
    forall i | 0 <= i < |es'| ensures StepAt(ss', es', i) {
      if i < |es| {
        assert StepAt(ss, es, i);
      }
    }
  }

  ghost predicate Reachable(s: Loop) {
    exists ss, es :: IsRun(ss, es) && s == ss[|es|]
  }

  lemma ReachInitial()
    ensures Reachable(Initial())
  {
    assert IsRun([Initial()], []);
  }

  lemma ReachStep(s: Loop, e: Event)
    requires Reachable(s) && Enabled(s, e)
    ensures Reachable(Apply(s, e))
  {
    var ss, es :| IsRun(ss, es) && s == ss[|es|];
    var ss', es' := ExtendRun(ss, es, e);
  }

  lemma ReachInv(s: Loop)
    requires Reachable(s)
    ensures Inv(s)
  {
    var ss, es :| IsRun(ss, es) && s == ss[|es|];
    InvInRun(ss, es, |es|);
  }

  lemma ReachEventfd(s: Loop)
    requires Reachable(s)
    ensures s.eventfd <= EFD_MAX
  {
    var ss, es :| IsRun(ss, es) && s == ss[|es|];
    EventfdCounts(ss, es, |es|);
  }

  /** `es'` continues `es` without new requests, by at most `n` steps. */
  ghost predicate Continues(es: seq<Event>, es': seq<Event>, n: nat) {
    && |es| <= |es'| <= |es| + n && es'[..|es|] == es
    && forall i | |es| <= i < |es'| :: !es'[i].Push? && !es'[i].Quit?
  }

  lemma ContinuesOn(a: seq<Event>, b: seq<Event>, c: seq<Event>, m: nat, n: nat)
    requires Continues(a, b, m) && Continues(b, c, n)
    ensures Continues(a, c, m + n)
  {
    assert c[..|a|] == b[..|a|] == a;
    forall i | |a| <= i < |c| ensures !c[i].Push? && !c[i].Quit? {
      assert i < |b| ==> c[i] == c[..|b|][i];
    }
  }

  lemma {:induction false} FinishBatch(ss: seq<Loop>, es: seq<Event>) returns (ss': seq<Loop>, es': seq<Event>)
    requires IsRun(ss, es) && ss[|es|].pc == Run && LOOP !in ss[|es|].waking
    ensures IsRun(ss', es') && Continues(es, es', |ss[|es|].batch| + 1)
    ensures ss'[|es'|].pc == Test && ss'[|es'|].executed == ss[|es|].executed + ss[|es|].batch
    ensures ss'[|es'|].quit == ss[|es|].quit
    decreases |ss[|es|].batch|
  {
    var s := ss[|es|];
    if s.batch == [] {
      ss', es' := ExtendRun(ss, es, EndRun);
    } else {
      var ss1, es1 := ExtendRun(ss, es, RunOne);
      ss', es' := FinishBatch(ss1, es1);
      ContinuesOn(es, es1, es', 1, |s.batch|);
      assert s.executed + s.batch == s.executed + [s.batch[0]] + s.batch[1..];
    }
  }

  /** From the return of poll to the run of the functors. */
  lemma EnterRun(ss: seq<Loop>, es: seq<Event>) returns (ss': seq<Loop>, es': seq<Event>)
    requires IsRun(ss, es) && ss[|es|].pc == Poll && LOOP !in ss[|es|].waking && ss[|es|].eventfd > 0
    ensures IsRun(ss', es') && Continues(es, es', 4) && ss'[|es'|].pc == Run && LOOP !in ss'[|es'|].waking
    ensures ss'[|es'|].batch == ss[|es|].pending && ss'[|es'|].executed == ss[|es|].executed
    ensures ss'[|es'|].quit == ss[|es|].quit
  {
    ss', es' := ExtendRun(ss, es, PollReturn(true));
    ss', es' := ExtendRun(ss', es', Drain);
    ss', es' := ExtendRun(ss', es', EndDispatch);
    ss', es' := ExtendRun(ss', es', TakeQueue);
  }

  /** A loop blocked in poll with work or a quit request pending is never stuck there: it takes
      at most one wakeup that is already on its way to run everything queued so far and to pass
      the loop test, which ends the loop exactly if that was requested, within a number of steps
      fixed by the queue's length. */
  lemma WorkGetsDone(ss: seq<Loop>, es: seq<Event>) returns (ss': seq<Loop>, es': seq<Event>)
    requires IsRun(ss, es) && ss[|es|].pc == Poll && (ss[|es|].pending != [] || ss[|es|].quit)
    ensures IsRun(ss', es') && Continues(es, es', |ss[|es|].pending| + 7)
    ensures ss'[|es'|].pc == (if ss[|es|].quit then Exited else Poll) && ss'[|es'|].executed == ss[|es|].queued
  {
    var s := ss[|es|];
    InvInRun(ss, es, |es|);
    ExecutedInOrder(ss, es, |es|);
    var ss1, es1 := ss, es;
    if s.eventfd == 0 {
      var t: Thread :| t in s.waking;
      ss1, es1 := ExtendRun(ss, es, Wakeup(t));
    }
    assert Continues(es, es1, 1);
    var ss2, es2 := EnterRun(ss1, es1);
    ContinuesOn(es, es1, es2, 1, 4);
    var ss3, es3 := FinishBatch(ss2, es2);
    ContinuesOn(es, es2, es3, 5, |s.pending| + 1);
    ss', es' := ExtendRun(ss3, es3, TestQuit);
    ContinuesOn(es, es3, es', |s.pending| + 6, 1);
    assert s.executed + s.pending == s.queued;
  }
}
