/**
 When timers run, over whole runs: a timer's first call is due when it was added for, and every
 later one its interval after reset put it back.
 */
module TimerHistory {
  import opened Options
  import opened TimerModel

  /** It is `id`'s turn in reset. */
  predicate Turn(q: Queue, id: nat) {
    q.phase.Resetting? && q.phase.next < |q.phase.expired| && q.phase.expired[q.phase.next].id == id
  }

  /** Step `k` adds the timer `id`. */
  ghost predicate Adds(ss: seq<Queue>, es: seq<Event>, k: nat, id: nat)
    requires k < |es| < |ss|
  {
    es[k].Add? && ss[k].unused == id
  }

  /** Step `r` puts the timer `id` back, or frees it. */
  ghost predicate Resets(ss: seq<Queue>, es: seq<Event>, r: nat, id: nat)
    requires r < |es| < |ss|
  {
    es[r] == ResetNext && Turn(ss[r], id)
  }

  // ---------------------------------------------------------------- one step

  /** A new timer stands in the set under the time it was given; the timerfd is set, for that time
      but not within 100 microseconds, only if that is earlier than all others. */
  lemma AddStands(q: Queue, t: Timer)
    requires Enabled(q, Add(t))
    ensures
      var r := Apply(q, Add(t));
      && Entry(t.expiration, q.unused) in r.timers && r.unused == q.unused + 1
      && r.table == q.table[q.unused := t] && r.calls == q.calls && r.clock == q.clock
      && (forall e | e in r.timers :: e.id == q.unused || e in q.timers) && ToRun(r) == ToRun(q)
      && r.fd == if q.timers == [] || t.expiration < q.timers[0].when then Some(Max(t.expiration, q.clock + 100)) else q.fd
  {
    InsertMembers(q.timers, Entry(t.expiration, q.unused));
  }

  /** Reset puts a repeating timer back for its interval from now, otherwise as it was, and frees
      one that does not repeat; it touches no other timer, and sets the timerfd for the first one
      in the set. */
  lemma ResetStands(q: Queue, id: nat)
    requires Enabled(q, ResetNext) && Turn(q, id)
    ensures
      var r, t := Apply(q, ResetNext), q.table[id];
      && (t.repeat ==>
           && r.table == q.table[id := Timer(q.clock + t.interval, t.interval, true)]
           && Entry(q.clock + t.interval, id) in r.timers)
      && (!t.repeat ==> r.table == q.table - {id} && r.timers == q.timers)
      && (forall e | e in r.timers :: e.id == id || e in q.timers)
      && r.unused == q.unused && r.calls == q.calls && r.clock == q.clock
      && r.fd == if r.timers == [] then q.fd else Some(Max(r.timers[0].when, q.clock + 100))
  {
    InsertMembers(q.timers, Entry(q.clock + q.table[id].interval, id));
  }

  /** No other step changes a timer. */
  lemma OthersKeep(q: Queue, e: Event)
    requires Enabled(q, e) && !e.Add? && e != ResetNext
    ensures
      var r := Apply(q, e);
      && r.table == q.table && r.unused == q.unused && r.clock >= q.clock
      && (forall x | x in r.timers :: x in q.timers)
      && (forall x | x in ToRun(r) :: x in ToRun(q) || x in q.timers)
      && (e == RunNext ==>
           var x := q.phase.expired[q.phase.next];
           r.calls == q.calls + [Call(x.id, q.clock, x.when, q.table[x.id].repeat)])
      && (e != RunNext ==> r.calls == q.calls)
  {
    if e.Handle? {
      var k := Due(q.timers, q.clock);
      assert q.timers == q.timers[..k] + q.timers[k..];
    }
  }

  /** Only its own Add and its own turn in reset change a timer, and only Add makes one. */
  lemma TimerKept(q: Queue, e: Event, id: nat)
    requires Enabled(q, e) && !(e.Add? && q.unused == id) && !(e == ResetNext && Turn(q, id))
    ensures
      var r := Apply(q, e);
      && (id in r.table <==> id in q.table) && (id in r.table ==> r.table[id] == q.table[id])
      && r.unused == q.unused + if e.Add? then 1 else 0
  {
    if e.Add? {
      AddStands(q, e.timer);
    } else if e == ResetNext {
      ResetStands(q, q.phase.expired[q.phase.next].id);
    } else {
      OthersKeep(q, e);
    }
  }

  /** Only RunNext makes a call. */
  lemma CallMade(q: Queue, e: Event)
    requires Enabled(q, e)
    ensures
      var r := Apply(q, e);
      if e == RunNext then
        var x := q.phase.expired[q.phase.next];
        r.calls == q.calls + [Call(x.id, q.clock, x.when, q.table[x.id].repeat)]
      else r.calls == q.calls
  {
    if e.Add? {
      AddStands(q, e.timer);
    } else if e == ResetNext {
      ResetStands(q, q.phase.expired[q.phase.next].id);
    } else {
      OthersKeep(q, e);
    }
  }

  // ---------------------------------------------------------------- the timers

  /** What the timer was made with stays as long as it is there. */
  lemma {:induction false} SinceAdd(clock: int, ss: seq<Queue>, es: seq<Event>, k: nat, i: nat, id: nat)
    requires IsRun(clock, ss, es) && k < i < |ss| && Adds(ss, es, k, id)
    ensures ss[i].unused > id
    ensures id in ss[i].table ==>
      ss[i].table[id].interval == es[k].timer.interval && ss[i].table[id].repeat == es[k].timer.repeat
  {
    var p, e := ss[i - 1], es[i - 1];
    assert StepAt(ss, es, i - 1);
    if k == i - 1 {
      AddStands(p, e.timer);
    } else {
      SinceAdd(clock, ss, es, k, i - 1, id);
      if e == ResetNext && Turn(p, id) {
        ResetStands(p, id);
      } else {
        TimerKept(p, e, id);
      }
    }
  }

  /** Every timer was added once. */
  lemma {:induction false} WasAdded(clock: int, ss: seq<Queue>, es: seq<Event>, i: nat, id: nat) returns (k: nat)
    requires IsRun(clock, ss, es) && i < |ss| && id < ss[i].unused
    ensures k < i && Adds(ss, es, k, id)
  {
    var p, e := ss[i - 1], es[i - 1];
    assert StepAt(ss, es, i - 1);
    if e.Add? && p.unused == id {
      k := i - 1;
    } else {
      if e == ResetNext && Turn(p, id) {
        ResetStands(p, id);
      } else {
        TimerKept(p, e, id);
      }
      k := WasAdded(clock, ss, es, i - 1, id);
    }
  }

  lemma {:induction false} ClockGrows(clock: int, ss: seq<Queue>, es: seq<Event>, i: nat, j: nat)
    requires IsRun(clock, ss, es) && i <= j < |ss|
    ensures ss[i].clock <= ss[j].clock
  {
    if i < j {
      ClockGrows(clock, ss, es, i, j - 1);
      assert StepAt(ss, es, j - 1);
    }
  }

  /** The step that last set when `id` is due: the one that added it, or a reset. */
  ghost predicate SetBy(ss: seq<Queue>, es: seq<Event>, r: nat, i: nat, id: nat)
    requires r < i <= |es| < |ss| && id in ss[i].table
  {
    var t := ss[i].table[id];
    && (forall j | r < j < i :: !Resets(ss, es, j, id))
    && (  (Adds(ss, es, r, id) && t == es[r].timer)
       || (Resets(ss, es, r, id) && t.repeat && t.expiration == ss[r].clock + t.interval))
  }

  lemma {:induction false} LastSet(clock: int, ss: seq<Queue>, es: seq<Event>, i: nat, id: nat) returns (r: nat)
    requires IsRun(clock, ss, es) && i < |ss| && id in ss[i].table
    ensures r < i && SetBy(ss, es, r, i, id)
  {
    var p, e := ss[i - 1], es[i - 1];
    assert StepAt(ss, es, i - 1);
    if e.Add? && p.unused == id {
      AddStands(p, e.timer);
      r := i - 1;
    } else if e == ResetNext && Turn(p, id) {
      ResetStands(p, id);
      r := i - 1;
    } else {
      TimerKept(p, e, id);
      r := LastSet(clock, ss, es, i - 1, id);
    }
  }

  // ---------------------------------------------------------------- the calls

  /** The step that makes call `b`. */
  lemma {:induction false} FindCall(clock: int, ss: seq<Queue>, es: seq<Event>, i: nat, b: nat) returns (p: nat)
    requires IsRun(clock, ss, es) && i < |ss| && b < |ss[i].calls|
    ensures p < i && es[p] == RunNext && ss[p].calls == ss[i].calls[..b] && ss[p + 1].calls == ss[i].calls[..b + 1]
  {
    assert StepAt(ss, es, i - 1);
    CallMade(ss[i - 1], es[i - 1]);
    if b == |ss[i - 1].calls| {
      p := i - 1;
    } else {
      p := FindCall(clock, ss, es, i - 1, b);
      assert ss[i].calls[..b] == ss[i - 1].calls[..b] && ss[i].calls[..b + 1] == ss[i - 1].calls[..b + 1];
    }
  }

  /** The timer neither is in the set nor waits for its callback. */
  ghost predicate AtRest(q: Queue, id: nat) {
    (forall e | e in q.timers :: e.id != id) && (forall e | e in ToRun(q) :: e.id != id)
  }

  /** A timer runs under the expiration it has then, and is at rest afterwards. */
  lemma RunAlone(q: Queue)
    requires Placed(q) && Enabled(q, RunNext)
    ensures
      var x := q.phase.expired[q.phase.next];
      && !AtRest(q, x.id) && x.when == q.table[x.id].expiration && x.id < q.unused
      && AtRest(Apply(q, RunNext), x.id) && Apply(q, RunNext).unused == q.unused
  {
    var n := q.phase.next;
    NextAlone(q.timers, q.phase.expired, q.table, q.clock, q.unused, n);
    assert q.phase.expired[n] in Out(q);
    assert ToRun(q)[0] == q.phase.expired[n] && ToRun(q)[0] in ToRun(q);
  }

  /** The call a step makes. */
  lemma CallFacts(clock: int, ss: seq<Queue>, es: seq<Event>, p: nat, c: Call)
    requires IsRun(clock, ss, es) && p < |es| && es[p] == RunNext && ss[p + 1].calls == ss[p].calls + [c]
    ensures c.id in ss[p].table && c.at == ss[p].clock && c.due == ss[p].table[c.id].expiration
    ensures c.repeat == ss[p].table[c.id].repeat
    ensures !AtRest(ss[p], c.id) && AtRest(ss[p + 1], c.id) && c.id < ss[p + 1].unused
  {
    assert StepAt(ss, es, p);
    CallMade(ss[p], RunNext);
    PlacedInRun(clock, ss, es, p);
    RunAlone(ss[p]);
    assert ss[p + 1].calls[|ss[p].calls|] == c;
  }

  lemma CallStep(clock: int, ss: seq<Queue>, es: seq<Event>, i: nat, b: nat) returns (p: nat)
    requires IsRun(clock, ss, es) && i < |ss| && b < |ss[i].calls|
    ensures p < i && es[p] == RunNext && ss[p].calls == ss[i].calls[..b]
    ensures
      var c := ss[i].calls[b];
      && c.id in ss[p].table && c.at == ss[p].clock && c.due == ss[p].table[c.id].expiration
      && c.repeat == ss[p].table[c.id].repeat
      && !AtRest(ss[p], c.id) && AtRest(ss[p + 1], c.id) && c.id < ss[p + 1].unused
  {
    p := FindCall(clock, ss, es, i, b);
    assert ss[i].calls[..b + 1] == ss[i].calls[..b] + [ss[i].calls[b]];
    CallFacts(clock, ss, es, p, ss[i].calls[b]);
  }

  /** A timer that has run rests until reset puts it back. */
  lemma {:induction false} RestsUntilReset(clock: int, ss: seq<Queue>, es: seq<Event>, i: nat, j: nat, id: nat)
    requires IsRun(clock, ss, es) && i <= j < |ss| && AtRest(ss[i], id) && id < ss[i].unused
    requires forall r | i <= r < j :: !Resets(ss, es, r, id)
    ensures AtRest(ss[j], id) && id < ss[j].unused
  {
    if i < j {
      var p, e := ss[j - 1], es[j - 1];
      RestsUntilReset(clock, ss, es, i, j - 1, id);
      assert StepAt(ss, es, j - 1) && !Resets(ss, es, j - 1, id);
      if e.Add? {
        AddStands(p, e.timer);
      } else if e == ResetNext {
        ResetStands(p, p.phase.expired[p.phase.next].id);
      } else {
        OthersKeep(p, e);
      }
    }
  }

  /** The step that adds a timer comes before any state that knows it. */
  lemma AddedBefore(clock: int, ss: seq<Queue>, es: seq<Event>, i: nat, r: nat, id: nat)
    requires IsRun(clock, ss, es) && i < |ss| && r < |es| && id < ss[i].unused
    ensures Adds(ss, es, r, id) ==> r < i
  {
    if Adds(ss, es, r, id) && i <= r {
      var k := WasAdded(clock, ss, es, i, id);
      SinceAdd(clock, ss, es, k, r, id);
    }
  }

  /** A timer at rest that is up for its callback again was put back in between. */
  lemma PutBackBetween(clock: int, ss: seq<Queue>, es: seq<Event>, i: nat, j: nat, id: nat) returns (r: nat)
    requires IsRun(clock, ss, es) && i <= j < |ss| && AtRest(ss[i], id) && id < ss[i].unused
    requires id in ss[j].table && !AtRest(ss[j], id)
    ensures i <= r < j && Resets(ss, es, r, id)
    ensures ss[j].table[id].repeat && ss[j].table[id].expiration == ss[r].clock + ss[j].table[id].interval
  {
    r := LastSet(clock, ss, es, j, id);
    if r < i || !Resets(ss, es, r, id) {
      AddedBefore(clock, ss, es, i, r, id);
      RestsUntilReset(clock, ss, es, i, j, id);
      assert false;
    }
  }

  /** The two calls' steps: the reset between them decides when the second is due. */
  lemma CallsApart(clock: int, ss: seq<Queue>, es: seq<Event>, i: nat, a: nat, b: nat) returns (p: nat, q: nat, r: nat)
    requires IsRun(clock, ss, es) && i < |ss| && a < b < |ss[i].calls| && ss[i].calls[a].id == ss[i].calls[b].id
    ensures
      var id := ss[i].calls[b].id;
      && p < r < q < i && Resets(ss, es, r, id) && ss[i].calls[a].at == ss[p].clock && id < ss[p + 1].unused
      && id in ss[q].table && ss[q].table[id].repeat && ss[i].calls[b].due == ss[r].clock + ss[q].table[id].interval
  {
    q := CallStep(clock, ss, es, i, b);
    p := CallStep(clock, ss, es, q, a);
    assert ss[q].calls[a] == ss[i].calls[a];
    r := PutBackBetween(clock, ss, es, p + 1, q, ss[i].calls[b].id);
  }

  /** A timer that runs again was put back by a reset since it last ran: it is due its interval
      after that, and so never runs within its interval. `k` is the step that added it and `r`
      the reset. */
  lemma RepeatsByInterval(clock: int, ss: seq<Queue>, es: seq<Event>, i: nat, a: nat, b: nat) returns (k: nat, r: nat)
    requires IsRun(clock, ss, es) && i < |ss| && a < b < |ss[i].calls| && ss[i].calls[a].id == ss[i].calls[b].id
    ensures k < r < i && Adds(ss, es, k, ss[i].calls[b].id) && Resets(ss, es, r, ss[i].calls[b].id)
    ensures es[k].timer.repeat
    ensures ss[i].calls[b].due == ss[r].clock + es[k].timer.interval
    ensures ss[i].calls[a].at <= ss[r].clock
    ensures ss[i].calls[b].at >= ss[i].calls[a].at + es[k].timer.interval
  {
    var id := ss[i].calls[b].id;
    var p, q;
    p, q, r := CallsApart(clock, ss, es, i, a, b);
    k := WasAdded(clock, ss, es, p + 1, id);
    SinceAdd(clock, ss, es, k, q, id);
    ClockGrows(clock, ss, es, p, r);
    OnTimeAndOnce(clock, ss, es, i, b);
  }

  // ---------------------------------------------------------------- the first call

  /** What is up for reset has been called. */
  ghost predicate BatchCalled(q: Queue) {
    match q.phase
    case Idle => true
    case Running(x, n) => forall j | 0 <= j < n && j < |x| :: Ran(q.calls, x[j].id)
    case Resetting(x, _) => forall j | 0 <= j < |x| :: Ran(q.calls, x[j].id)
  }

  ghost predicate Ran(calls: seq<Call>, id: nat) { exists c :: c in calls && c.id == id }

  lemma BatchCalledStep(q: Queue, e: Event)
    requires Phased(q) && BatchCalled(q) && Enabled(q, e)
    ensures BatchCalled(Apply(q, e))
  {
    if e == RunNext {
      var r, x := Apply(q, e), q.phase.expired[q.phase.next];
      forall j | 0 <= j < r.phase.next && j < |r.phase.expired| ensures Ran(r.calls, r.phase.expired[j].id) {
        if j < q.phase.next {
          var c :| c in q.calls && c.id == q.phase.expired[j].id;
          assert c in r.calls;
        } else {
          assert r.calls[|q.calls|] in r.calls && r.calls[|q.calls|].id == x.id;
        }
      }
    }
  }

  lemma {:induction false} BatchCalledInRun(clock: int, ss: seq<Queue>, es: seq<Event>, i: nat)
    requires IsRun(clock, ss, es) && i < |ss|
    ensures BatchCalled(ss[i])
  {
    if i > 0 {
      BatchCalledInRun(clock, ss, es, i - 1);
      PhasedInRun(clock, ss, es, i - 1);
      assert StepAt(ss, es, i - 1);
      BatchCalledStep(ss[i - 1], es[i - 1]);
    }
  }

  lemma {:induction false} CallsGrowInRun(clock: int, ss: seq<Queue>, es: seq<Event>, i: nat, j: nat)
    requires IsRun(clock, ss, es) && i <= j < |ss|
    ensures ss[i].calls <= ss[j].calls
  {
    if i < j {
      CallsGrowInRun(clock, ss, es, i, j - 1);
      assert StepAt(ss, es, j - 1);
    }
  }

  /** A timer's first call is due when the timer was added for. */
  lemma FirstCallAsAdded(clock: int, ss: seq<Queue>, es: seq<Event>, i: nat, a: nat) returns (k: nat)
    requires IsRun(clock, ss, es) && i < |ss| && a < |ss[i].calls|
    requires forall b | 0 <= b < a :: ss[i].calls[b].id != ss[i].calls[a].id
    ensures k < i && Adds(ss, es, k, ss[i].calls[a].id)
    ensures ss[i].calls[a].due == es[k].timer.expiration && ss[i].calls[a].repeat == es[k].timer.repeat
  {
    var id := ss[i].calls[a].id;
    var p := CallStep(clock, ss, es, i, a);
    k := LastSet(clock, ss, es, p, id);
    if Resets(ss, es, k, id) {
      BatchCalledInRun(clock, ss, es, k);
      var c :| c in ss[k].calls && c.id == id;
      CallsGrowInRun(clock, ss, es, k, p);
    }
  }
}
