/**
 EventLoop with its fields, run as one program: what other threads do happens between the loop
 thread's steps. `eventfd` is the kernel's counter behind wakeupFd_. Methods that other threads
 may call take the calling thread as an argument.
 */
module EventLoops {
  import opened EventLoopModel

  /** Some other thread. */
  const OTHER: Thread := 1

  /** What the functors `fs` queue when run one after the other. */
  function Spawned(spawn: Functor -> seq<Functor>, fs: seq<Functor>): seq<Functor> {
    if fs == [] then [] else Spawned(spawn, fs[..|fs| - 1]) + spawn(fs[|fs| - 1])
  }

  /** What is pending after `n` rounds, when the functors `arrivals[r]` arrive in round `r`. */
  function Carry(spawn: Functor -> seq<Functor>, arrivals: seq<seq<Functor>>, n: nat): seq<Functor>
    requires n <= |arrivals|
  {
    if n == 0 then [] else Spawned(spawn, Carry(spawn, arrivals, n - 1) + arrivals[n - 1])
  }

  /** What has been executed after `n` rounds: in each, what the last one left and what arrived. */
  function Done(spawn: Functor -> seq<Functor>, arrivals: seq<seq<Functor>>, n: nat): seq<Functor>
    requires n <= |arrivals|
  {
    if n == 0 then [] else Done(spawn, arrivals, n - 1) + (Carry(spawn, arrivals, n - 1) + arrivals[n - 1])
  }

  /** A push and its wakeup, from another thread while the loop blocks or from a functor. */
  lemma QueuedAndWoken(s: Loop, thread: Thread, f: Functor)
    requires Reachable(s) && thread !in s.waking && (if thread == LOOP then s.pc == Run else s.pc == Poll)
    ensures thread in Apply(s, Push(thread, f)).waking
    ensures
      var t := Apply(Apply(s, Push(thread, f)), Event.Wakeup(thread));
      && Reachable(t)
      && t == s.(pending := s.pending + [f], queued := s.queued + [f], eventfd := t.eventfd)
      && t.eventfd == Min(s.eventfd + 1, EFD_MAX)
  {
    ReachInv(s);
    ReachEventfd(s);
    ReachStep(s, Push(thread, f));
    ReachStep(Apply(s, Push(thread, f)), Event.Wakeup(thread));
  }

  class EventLoop {
    var quit: bool
    var callingPendingFunctors: bool
    var pendingFunctors: seq<Functor>
    var functors: seq<Functor>  // local of doPendingFunctors, what is left of it
    var eventfd: nat
    var executed: seq<Functor>  // the calls made so far
    ghost var pc: Pc
    ghost var waking: set<Thread>
    ghost var queued: seq<Functor>
    ghost var mark: nat

    ghost function State(): Loop
      reads this
    {
      EventLoopModel.Loop.Loop(pc, quit, callingPendingFunctors, pendingFunctors, functors, eventfd, waking, queued, executed, mark)
    }

    constructor ()
      ensures State() == Initial()
    {
      quit, callingPendingFunctors, pendingFunctors, functors, eventfd := false, false, [], [], 0;
      pc, waking, queued, executed, mark := Test, {}, [], [], 0;
    }

    method Wakeup(ghost thread: Thread)
      requires thread in waking
      modifies this
      ensures State() == Apply(old(State()), Event.Wakeup(thread))
    {
      if eventfd < EFD_MAX {
        eventfd := eventfd + 1;
      }
      waking := waking - {thread};
    }

    /** queueInLoop as one call. */
    method QueueInLoop(thread: Thread, cb: Functor)
      requires Enabled(State(), Push(thread, cb))
      modifies this
      ensures
        var s := Apply(old(State()), Push(thread, cb));
        State() == if thread in s.waking then Apply(s, Event.Wakeup(thread)) else s
      ensures pendingFunctors == old(pendingFunctors) + [cb]
      ensures eventfd == if thread == LOOP && !callingPendingFunctors then old(eventfd)
                         else if old(eventfd) < EFD_MAX then old(eventfd) + 1 else old(eventfd)
    {
      pendingFunctors, queued := pendingFunctors + [cb], queued + [cb];
      if thread != LOOP || callingPendingFunctors {
        waking := waking + {thread};
        Wakeup(thread);
      }
    }

    /** quit as one call. */
    method Quit(thread: Thread)
      requires Enabled(State(), Event.Quit(thread))
      modifies this
      ensures
        var s := Apply(old(State()), Event.Quit(thread));
        State() == if thread in s.waking then Apply(s, Event.Wakeup(thread)) else s
      ensures quit && eventfd == if thread == LOOP || old(eventfd) >= EFD_MAX then old(eventfd) else old(eventfd) + 1
    {
      quit := true;
      if thread != LOOP {
        waking := waking + {thread};
        Wakeup(thread);
      }
    }

    method QueueOne(thread: Thread, f: Functor)
      requires Reachable(State()) && thread !in waking && (if thread == LOOP then pc == Run else pc == Poll)
      modifies this
      ensures Reachable(State()) && pc == old(pc) && waking == old(waking) && quit == old(quit)
      ensures functors == old(functors) && executed == old(executed)
      ensures pendingFunctors == old(pendingFunctors) + [f] && eventfd == Min(old(eventfd) + 1, EFD_MAX)
    {
      ghost var s := State();
      QueuedAndWoken(s, thread, f);
      QueueInLoop(thread, f);
      assert State() == s.(pending := s.pending + [f], queued := s.queued + [f], eventfd := eventfd);
    }

    /** One thread queues several functors: they go behind what is pending, and the eventfd is
        raised once for each. */
    method QueueAll(thread: Thread, fs: seq<Functor>)
      requires Reachable(State()) && thread !in waking && (if thread == LOOP then pc == Run else pc == Poll)
      modifies this
      ensures Reachable(State()) && pc == old(pc) && waking == old(waking) && quit == old(quit)
      ensures functors == old(functors) && executed == old(executed)
      ensures pendingFunctors == old(pendingFunctors) + fs
      ensures eventfd == Min(old(eventfd) + |fs|, EFD_MAX)
    {
      ReachEventfd(State());
      for i := 0 to |fs|
        invariant Reachable(State()) && pc == old(pc) && waking == old(waking) && quit == old(quit)
        invariant functors == old(functors) && executed == old(executed)
        invariant pendingFunctors == old(pendingFunctors) + fs[..i]
        invariant eventfd == Min(old(eventfd) + i, EFD_MAX)
      {
        QueueOne(thread, fs[i]);
        assert fs[..i + 1] == fs[..i] + [fs[i]];
      }
      assert fs[..|fs|] == fs;
    }

    /** Runs the first functor of the batch, which queues `spawn` of itself. */
    method RunFirst(spawn: Functor -> seq<Functor>)
      requires Reachable(State()) && pc == Run && LOOP !in waking && functors != []
      modifies this
      ensures Reachable(State()) && pc == Run && waking == old(waking) && quit == old(quit)
      ensures functors == old(functors)[1..] && executed == old(executed) + [old(functors)[0]]
      ensures pendingFunctors == old(pendingFunctors) + spawn(old(functors)[0])
      ensures eventfd == Min(old(eventfd) + |spawn(old(functors)[0])|, EFD_MAX)
    {
      var f := functors[0];
      ReachStep(State(), RunOne);
      executed, functors := executed + [f], functors[1..];
      QueueAll(LOOP, spawn(f));
    }

    /** The loop over the swapped-out vector. It ends although functors keep queueing more. */
    method RunBatch(spawn: Functor -> seq<Functor>)
      requires Reachable(State()) && pc == Run && LOOP !in waking && pendingFunctors == []
      modifies this
      ensures Reachable(State()) && pc == Run && waking == old(waking) && quit == old(quit)
      ensures functors == [] && executed == old(executed) + old(functors)
      ensures pendingFunctors == Spawned(spawn, old(functors))
      ensures eventfd == Min(old(eventfd) + |pendingFunctors|, EFD_MAX)
    {
      ReachEventfd(State());
      ghost var all, n := functors, 0;
      while functors != []
        invariant Reachable(State()) && pc == Run && waking == old(waking) && quit == old(quit)
        invariant n <= |all| && functors == all[n..] && executed == old(executed) + all[..n]
        invariant pendingFunctors == Spawned(spawn, all[..n])
        invariant eventfd == Min(old(eventfd) + |pendingFunctors|, EFD_MAX)
        decreases |functors|
      {
        assert all[..n + 1][..n] == all[..n] && all[..n + 1] == all[..n] + [functors[0]];
        RunFirst(spawn);
        n := n + 1;
      }
      assert all[..n] == all;
    }

    /** The flag and the swap. */
    method TakePending()
      requires Reachable(State()) && pc == Dispatch(false) && LOOP !in waking
      modifies this
      ensures Reachable(State()) && pc == Run && waking == old(waking) && quit == old(quit)
      ensures functors == old(pendingFunctors) && pendingFunctors == [] && executed == old(executed)
      ensures eventfd == old(eventfd)
    {
      ReachStep(State(), EndDispatch);
      callingPendingFunctors, pc := true, Take;
      ReachStep(State(), TakeQueue);
      ReachInv(State());
      functors, pendingFunctors := pendingFunctors, [];
      mark, pc := |queued|, Run;
    }

    /** doPendingFunctors on a loop left alone by other threads. A functor `f` queues, while
        it runs, the functors `spawn(f)`. It executes exactly what was pending, and raises the
        eventfd once for each functor that was queued meanwhile. */
    method DoPendingFunctors(spawn: Functor -> seq<Functor>)
      requires Reachable(State()) && pc == Dispatch(false) && LOOP !in waking
      modifies this
      ensures Reachable(State()) && pc == Test && waking == old(waking) && quit == old(quit)
      ensures executed == old(executed) + old(pendingFunctors)
      ensures pendingFunctors == Spawned(spawn, old(pendingFunctors))
      ensures eventfd == Min(old(eventfd) + |pendingFunctors|, EFD_MAX)
    {
      TakePending();
      RunBatch(spawn);
      ReachStep(State(), EndRun);
      callingPendingFunctors, pc := false, Test;
    }

    /** One iteration of the loop from the moment the eventfd makes poll return. What the counter
        held is gone: afterwards it counts the functors queued in this iteration, so the loop
        blocks again if there were none. */
    method Iterate(spawn: Functor -> seq<Functor>)
      requires Reachable(State()) && pc == Poll && waking == {} && eventfd > 0
      modifies this
      ensures Reachable(State()) && pc == (if quit then Exited else Poll) && waking == {} && quit == old(quit)
      ensures executed == old(executed) + old(pendingFunctors)
      ensures pendingFunctors == Spawned(spawn, old(pendingFunctors))
      ensures eventfd == Min(|Spawned(spawn, old(pendingFunctors))|, EFD_MAX)
    {
      ReachStep(State(), PollReturn(true));
      pc := Dispatch(true);
      ReachStep(State(), Drain);
      eventfd, pc := 0, Dispatch(false);
      DoPendingFunctors(spawn);
      ReachStep(State(), TestQuit);
      pc := if quit then Exited else Poll;
    }

    /** A quit from another thread wakes the loop. */
    method QuitFromOutside()
      requires Reachable(State()) && pc == Poll && waking == {}
      modifies this
      ensures Reachable(State()) && pc == Poll && waking == {} && quit && eventfd > 0
      ensures pendingFunctors == old(pendingFunctors) && executed == old(executed)
    {
      ghost var s := State();
      ReachStep(s, Event.Quit(OTHER));
      ReachStep(Apply(s, Event.Quit(OTHER)), Event.Wakeup(OTHER));
      Quit(OTHER);
    }

    /** loop, when other threads queue `arrivals[r]` while it waits in round `r` and one of them
        calls quit in the end. Every arrival is executed, in order, with what functors queued in
        between; the loop ends; and what the functors of the last round queued is never run. */
    method Loop(arrivals: seq<seq<Functor>>, spawn: Functor -> seq<Functor>)
      requires State() == Initial()
      modifies this
      ensures Reachable(State()) && pc == Exited && quit
      ensures executed == Done(spawn, arrivals, |arrivals|) + Carry(spawn, arrivals, |arrivals|)
      ensures pendingFunctors == Spawned(spawn, Carry(spawn, arrivals, |arrivals|))
      ensures eventfd == Min(|pendingFunctors|, EFD_MAX)
    {
      ReachInitial();
      ReachStep(State(), TestQuit);
      pc := Poll;
      for r := 0 to |arrivals|
        invariant Reachable(State()) && pc == Poll && waking == {} && !quit
        invariant executed == Done(spawn, arrivals, r) && pendingFunctors == Carry(spawn, arrivals, r)
        invariant eventfd == Min(|pendingFunctors|, EFD_MAX)
      {
        QueueAll(OTHER, arrivals[r]);
        ReachInv(State());
        if eventfd > 0 {
          Iterate(spawn);
        }
      }
      QuitFromOutside();
      Iterate(spawn);
    }
  }
}
