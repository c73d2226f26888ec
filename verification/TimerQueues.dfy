/**
 TimerQueue with its fields. Timers are known by number instead of by address; `table` holds
 the allocated ones. `clock` is what Timestamp::now() reads.
 */
module TimerQueues {
  import opened Options
  import opened TimerModel
  import opened TimerHistory

  class TimerQueue {
    var clock: int
    var timers: seq<Entry>
    var table: map<nat, Timer>
    var unused: nat
    var timerfd: Option<int>
    ghost var armedAt: int
    ghost var reported: bool
    ghost var rearmed: bool
    ghost var spent: bool
    ghost var phase: Phase
    ghost var calls: seq<Call>
    ghost const origin: int  // the clock when the queue was made

    ghost function State(): Queue
      reads this
    {
      Queue(clock, timers, table, unused, timerfd, armedAt, reported, rearmed, spent, phase, calls)
    }

    constructor (clock: int)
      ensures State() == Start(clock) && origin == clock && Reachable(origin, State())
    {
      origin := clock;
      this.clock, timers, table, unused, timerfd := clock, [], map[], 0, None;
      armedAt, reported, rearmed, spent, phase, calls := clock, false, false, false, Idle, [];
      ReachStart(clock);
    }

    /** Sets the timerfd by seconds and nanoseconds from now: it will fire at `expiration`, but not
        within the next 100 microseconds. */
    method ResetTimerfd(expiration: int)
      modifies `timerfd, `armedAt, `rearmed, `spent
      ensures timerfd == Some(Max(expiration, clock + 100)) && timerfd.value > clock
      ensures State() == Arm(old(State()), expiration)
    {
      var microSecondDif := expiration - clock;
      if microSecondDif < 100 {
        microSecondDif := 100;
      }
      var seconds, nanoseconds := microSecondDif / 1_000_000, microSecondDif % 1_000_000 * 1000;
      timerfd := Some(clock + seconds * 1_000_000 + nanoseconds / 1000);
      armedAt, rearmed, spent := clock, true, false;
    }

    /** insert: also whether the new entry is due before all others. */
    method InsertEntry(e: Entry) returns (earliestChanged: bool)
      modifies `timers
      ensures timers == Insert(old(timers), e)
      ensures earliestChanged <==> old(timers) == [] || e.when < old(timers)[0].when
    {
      earliestChanged := timers == [] || e.when < timers[0].when;
      timers := InsertInto(timers, e);
    }

    method AddTimerInLoop(timer: Timer)
      modifies this
      ensures State() == AddTimer(old(State()), timer)
    {
      table := table[unused := timer];
      var earliestChanged := InsertEntry(Entry(timer.expiration, unused));
      unused := unused + 1;
      if earliestChanged {
        ResetTimerfd(timer.expiration);
      }
    }

    /** getExpired: split off the entries up to (now, the largest pointer). */
    method GetExpired(now: int) returns (expired: seq<Entry>)
      modifies `timers
      ensures var k := Due(old(timers), now); expired == old(timers)[..k] && timers == old(timers)[k..]
    {
      var k := 0;
      while k < |timers| && timers[k].when <= now
        invariant k <= |timers| && timers == old(timers)
        invariant Due(timers, now) == k + Due(timers[k..], now)
      {
        assert timers[k..][1..] == timers[k + 1..];
        k := k + 1;
      }
      expired, timers := timers[..k], timers[k..];
    }

    /** The first half of handleRead; `lag` passes between its readings of clock and timerfd. */
    method TakeExpired(lag: nat) returns (expired: seq<Entry>)
      requires phase == Idle && reported
      modifies this
      ensures State() == Apply(old(State()), Handle(lag))
      ensures expired == old(timers)[..Due(old(timers), old(clock))]
    {
      var now := clock;
      ReadTimerFd(lag);
      expired := GetExpired(now);
      phase := Running(expired, 0);
    }

    /** The read clears the timerfd if it has fired by then. */
    method ReadTimerFd(lag: nat)
      modifies `clock, `timerfd, `reported, `spent
      ensures
        var q := old(State());
        State() == q.(clock := q.clock + lag, fd := if Fired(q, q.clock + lag) then None else q.fd,
                      reported := false, spent := q.spent || Spends(q, lag))
    {
      spent, reported := spent || Spends(State(), lag), false;
      clock := clock + lag;
      if timerfd.Some? && timerfd.value <= clock {
        timerfd := None;
      }
    }

    method RunCallback(x: Entry)
      requires Enabled(State(), RunNext) && phase.expired[phase.next] == x
      modifies this
      ensures State() == Apply(old(State()), RunNext)
    {
      calls := calls + [Call(x.id, clock, x.when, table[x.id].repeat)];
      phase := Running(phase.expired, phase.next + 1);
    }

    /** The timer whose turn it is goes back into the set, due its interval from now, or is freed. */
    method ReturnOrFree(x: Entry)
      requires Enabled(State(), ResetNext) && phase.expired[phase.next] == x
      modifies `table, `timers, `phase
      ensures State() == PutBack(old(State()))
    {
      var timer := table[x.id];
      if timer.repeat {
        timer := timer.(expiration := clock + timer.interval);
        table := table[x.id := timer];
        var changed := InsertEntry(Entry(timer.expiration, x.id));
      } else {
        table := table - {x.id};
      }
      phase := Resetting(phase.expired, phase.next + 1);
    }

    /** One round of reset. */
    method ResetEntry(x: Entry)
      requires Enabled(State(), ResetNext) && phase.expired[phase.next] == x
      modifies this
      ensures State() == Apply(old(State()), ResetNext)
      ensures
        var t := old(table)[x.id];
        if t.repeat then
          && x.id in table && table[x.id] == t.(expiration := clock + t.interval)
          && Entry(clock + t.interval, x.id) in timers
        else x.id !in table && timers == old(timers)
    {
      ResetStands(State(), x.id);
      ReturnOrFree(x);
      if timers != [] {
        ResetTimerfd(timers[0].when);
      }
    }

    method Reset(expired: seq<Entry>)
      requires Reachable(origin, State()) && phase == Resetting(expired, 0)
      modifies this
      ensures Reachable(origin, State()) && phase == Resetting(expired, |expired|) && calls == old(calls)
    {
      for i := 0 to |expired|
        invariant Reachable(origin, State()) && phase == Resetting(expired, i) && calls == old(calls)
      {
        NoDanglingTimer(origin, State());
        ReachStep(origin, State(), ResetNext);
        ResetEntry(expired[i]);
      }
    }

    /** What a callback does meanwhile: time passes and timers are added. */
    method Meanwhile(cost: nat, adds: seq<Timer>)
      requires Reachable(origin, State()) && phase.Running?
      modifies this
      ensures Reachable(origin, State()) && phase == old(phase) && calls == old(calls)
    {
      ReachStep(origin, State(), Tick(cost));
      clock := clock + cost;
      for i := 0 to |adds|
        invariant Reachable(origin, State()) && phase == old(phase) && calls == old(calls)
      {
        ReachStep(origin, State(), Add(adds[i]));
        AddTimerInLoop(adds[i]);
      }
    }

    method RunAll(expired: seq<Entry>, cost: nat -> nat, adds: nat -> seq<Timer>)
      requires Reachable(origin, State()) && phase == Running(expired, 0)
      modifies this
      ensures Reachable(origin, State()) && phase == Running(expired, |expired|)
      ensures CallIds(calls) == CallIds(old(calls)) + Ids(expired)
    {
      for i := 0 to |expired|
        invariant Reachable(origin, State()) && phase == Running(expired, i)
        invariant CallIds(calls) == CallIds(old(calls)) + Ids(expired)[..i]
      {
        NoDanglingTimer(origin, State());
        ReachStep(origin, State(), RunNext);
        ghost var before := calls;
        RunCallback(expired[i]);
        assert CallIds(calls) == CallIds(before) + [expired[i].id];
        assert Ids(expired)[..i + 1] == Ids(expired)[..i] + [expired[i].id];
        Meanwhile(cost(expired[i].id), adds(expired[i].id));
      }
    }

    /** handleRead with callbacks that take time and add timers: exactly the timers that are due
        run, in order, and afterwards the queue is in a resting state of some run of the model. */
    method HandleRead(lag: nat, cost: nat -> nat, adds: nat -> seq<Timer>)
      requires Reachable(origin, State()) && phase == Idle && reported
      modifies this
      ensures Reachable(origin, State()) && phase == Idle
      ensures CallIds(calls) == CallIds(old(calls)) + Ids(old(timers)[..Due(old(timers), old(clock))])
    {
      ReachStep(origin, State(), Handle(lag));
      var expired := TakeExpired(lag);
      RunAll(expired, cost, adds);
      ReachStep(origin, State(), EndRun);
      phase := Resetting(expired, 0);
      Reset(expired);
      ReachStep(origin, State(), EndReset);
      phase := Idle;
    }
  }

  lemma InsertBehind(s: seq<Entry>, e: Entry, i: nat)
    requires i < |s| && !Less(e, s[i]) && s[i] != e
    ensures s[..i] + Insert(s[i..], e) == s[..i + 1] + Insert(s[i + 1..], e)
  {
    assert s[i..][1..] == s[i + 1..];
    assert s[..i + 1] == s[..i] + [s[i]];
    assert Insert(s[i..], e) == [s[i]] + Insert(s[i + 1..], e);
  }

  /** std::set::insert on the sequence of its elements. */
  method InsertInto(s: seq<Entry>, e: Entry) returns (r: seq<Entry>)
    ensures r == Insert(s, e)
  {
    var i := 0;
    while i < |s| && !Less(e, s[i]) && s[i] != e
      invariant i <= |s| && Insert(s, e) == s[..i] + Insert(s[i..], e)
    {
      InsertBehind(s, e, i);
      i := i + 1;
    }
    assert s[..i] + s[i..] == s;
    r := if i == |s| || s[i] != e then s[..i] + ([e] + s[i..]) else s;
  }

  function CallIds(calls: seq<Call>): seq<nat> { seq(|calls|, i requires 0 <= i < |calls| => calls[i].id) }
}
