/**
 The timer queue: an ordered set of (expiration, timer) entries over a one-shot kernel
 timer. Callbacks run while the queue is between taking out what expired and putting the
 repeating timers back, and may add timers of their own.
 */
module TimerModel {
  import opened Options

  /** A timer: when it is due, in microseconds, and by how much it is put off when repeating. */
  datatype Timer = Timer(expiration: int, interval: nat, repeat: bool)

  datatype Entry = Entry(when: int, id: nat)

  /** The order of std::pair. */
  predicate Less(a: Entry, b: Entry) {
    a.when < b.when || (a.when == b.when && a.id < b.id)
  }

  ghost predicate Sorted(s: seq<Entry>) {
    forall i, j | 0 <= i < j < |s| :: Less(s[i], s[j])
  }

  // ---------------------------------------------------------------- the ordered set

  /** std::set::insert. */
  function Insert(s: seq<Entry>, e: Entry): seq<Entry> {
    if s == [] || Less(e, s[0]) then [e] + s
    else if s[0] == e then s
    else [s[0]] + Insert(s[1..], e)
  }

  /** How many entries are not after (now, the largest pointer). */
  function Due(s: seq<Entry>, now: int): (k: nat)
    ensures k <= |s|
  {
    if s == [] || s[0].when > now then 0 else 1 + Due(s[1..], now)
  }

  function Ids(s: seq<Entry>): seq<nat> { seq(|s|, i requires 0 <= i < |s| => s[i].id) }

  lemma {:induction false} InsertMembers(s: seq<Entry>, e: Entry)
    ensures forall x :: x in Insert(s, e) <==> x == e || x in s
  {
    if s != [] {
      assert s == [s[0]] + s[1..];
      InsertMembers(s[1..], e);
    }
  }

  lemma {:induction false} InsertSorted(s: seq<Entry>, e: Entry)
    requires Sorted(s)
    ensures Sorted(Insert(s, e)) && Insert(s, e) != []
    ensures Insert(s, e)[0].when == if s == [] || e.when < s[0].when then e.when else s[0].when
  {
    if s != [] && !Less(e, s[0]) && s[0] != e {
      InsertSorted(s[1..], e);
      InsertMembers(s[1..], e);
      var r := Insert(s[1..], e);
      forall j | 0 <= j < |r| ensures Less(s[0], r[j]) {
        assert r[j] in r;
      }
    }
  }

  /** An entry of a sorted sequence is there once. */
  lemma SortedTail(s: seq<Entry>)
    requires Sorted(s) && s != []
    ensures Sorted(s[1..]) && s[0] !in s[1..] && forall e :: e in s <==> e == s[0] || e in s[1..]
  {
    assert s == [s[0]] + s[1..];
  }

  lemma {:induction false} DueFacts(s: seq<Entry>, now: int)
    requires Sorted(s)
    ensures forall i | 0 <= i < Due(s, now) :: s[i].when <= now
    ensures forall i | Due(s, now) <= i < |s| :: s[i].when > now
  {
    if s != [] {
      if s[0].when > now {
        assert forall i | 0 < i < |s| :: Less(s[0], s[i]);
      } else {
        DueFacts(s[1..], now);
        assert forall i | 1 <= i < |s| :: s[i] == s[1..][i - 1];
      }
    }
  }

  // ---------------------------------------------------------------- the queue

  /** Between operations; running the callbacks of `expired`, `next` first; putting them back. */
  datatype Phase = Idle | Running(expired: seq<Entry>, next: nat) | Resetting(expired: seq<Entry>, next: nat)

  /** A callback run: which timer, at what time, due since when. */
  datatype Call = Call(id: nat, at: int, due: int, repeat: bool)

  datatype Queue = Queue(
    clock: int,
    timers: seq<Entry>,
    table: map<nat, Timer>,  // the timers that are allocated
    unused: nat,             // the next unused timer
    fd: Option<int>,         // when the kernel timer fires, unless it is disarmed
    armedAt: int,            // when it was last armed
    reported: bool,          // poll has reported it and handleRead is still to come
    rearmed: bool,           // it has been armed again since poll reported it
    spent: bool,             // its last firing was read for nothing, see Spends
    phase: Phase,
    calls: seq<Call>)

  function Start(clock: int): Queue {
    Queue(clock, [], map[], 0, None, clock, false, false, false, Idle, [])
  }

  function Max(a: int, b: int): int { if a < b then b else a }

  /** The delay resetTimerfd asks for: at least 100 microseconds. */
  function Delay(expiration: int, now: int): int {
    if expiration - now < 100 then 100 else expiration - now
  }

  /** The seconds and nanoseconds it hands to the kernel. */
  function Timespec(delay: int): (int, int)
    requires delay >= 0
  {
    (delay / 1_000_000, delay % 1_000_000 * 1000)
  }

  /** The kernel is asked for exactly the delay, in a normal timespec. */
  lemma TimespecExact(expiration: int, now: int)
    ensures var (s, ns) := Timespec(Delay(expiration, now));
      s * 1_000_000_000 + ns == Delay(expiration, now) * 1000 && 0 <= ns < 1_000_000_000 && s >= 0 && s + ns > 0
    ensures now + Delay(expiration, now) == Max(expiration, now + 100)
  {
  }

  function Arm(q: Queue, expiration: int): Queue {
    q.(fd := Some(q.clock + Delay(expiration, q.clock)), armedAt := q.clock, rearmed := true, spent := false)
  }

  function AddTimer(q: Queue, t: Timer): Queue {
    var r := q.(timers := Insert(q.timers, Entry(t.expiration, q.unused)), table := q.table[q.unused := t], unused := q.unused + 1);
    if q.timers == [] || t.expiration < q.timers[0].when then Arm(r, t.expiration) else r
  }

  predicate Fired(q: Queue, at: int) {
    q.fd.Some? && q.fd.value <= at
  }

  /** handleRead up to the callbacks: it reads the clock, then, `lag` later, the timerfd, and takes
      out what was due at the first of these moments. */
  function Begin(q: Queue, lag: nat): Queue {
    var k := Due(q.timers, q.clock);
    q.(clock := q.clock + lag,
       fd := if Fired(q, q.clock + lag) then None else q.fd,
       reported := false, spent := q.spent || Spends(q, lag),
       timers := q.timers[k..], phase := Running(q.timers[..k], 0))
  }

  /** The timerfd fires between the two readings and nothing was due at the first: its firing is
      consumed, and with nothing expired it is not set again. */
  predicate Spends(q: Queue, lag: nat) {
    Due(q.timers, q.clock) == 0 && q.timers != [] && Fired(q, q.clock + lag)
  }

  function Restart(t: Timer, now: int): Timer {
    t.(expiration := if t.repeat then now + t.interval else 0)
  }

  /** The timer whose turn it is in reset is put back or freed. */
  function PutBack(q: Queue): Queue
    requires q.phase.Resetting? && q.phase.next < |q.phase.expired| && q.phase.expired[q.phase.next].id in q.table
  {
    var id := q.phase.expired[q.phase.next].id;
    var t := Restart(q.table[id], q.clock);
    var r := q.(phase := Resetting(q.phase.expired, q.phase.next + 1));
    if t.repeat then r.(timers := Insert(q.timers, Entry(t.expiration, id)), table := q.table[id := t])
    else r.(table := q.table - {id})
  }

  /** resetTimerfd for the first entry, if there is one. */
  function Rearm(q: Queue): Queue {
    if q.timers == [] then q else Arm(q, q.timers[0].when)
  }

  /** One round of reset. */
  function ResetOne(q: Queue): Queue
    requires q.phase.Resetting? && q.phase.next < |q.phase.expired| && q.phase.expired[q.phase.next].id in q.table
  {
    Rearm(PutBack(q))
  }

  datatype Event =
    | Tick(micros: nat)
    | Add(timer: Timer)  // addTimerInLoop, from a handler or from a timer callback
    | Report             // poll finds the timerfd readable
    | Handle(lag: nat)   // handleRead, later in the same round, up to the callbacks
    | RunNext            // one callback
    | EndRun
    | ResetNext
    | EndReset

  predicate Enabled(q: Queue, e: Event) {
    match e
    case Tick(_) => true
    case Add(_) => q.phase.Idle? || q.phase.Running?
    case Report => q.phase.Idle? && Fired(q, q.clock)
    case Handle(_) => q.phase.Idle? && q.reported
    case RunNext => q.phase.Running? && q.phase.next < |q.phase.expired| && q.phase.expired[q.phase.next].id in q.table
    case EndRun => q.phase.Running? && q.phase.next >= |q.phase.expired|
    case ResetNext => q.phase.Resetting? && q.phase.next < |q.phase.expired| && q.phase.expired[q.phase.next].id in q.table
    case EndReset => q.phase.Resetting? && q.phase.next >= |q.phase.expired|
  }

  function Apply(q: Queue, e: Event): Queue
    requires Enabled(q, e)
  {
    match e
    case Tick(micros) => q.(clock := q.clock + micros)
    case Add(t) => AddTimer(q, t)
    case Report => q.(reported := true, rearmed := false)
    case Handle(lag) => Begin(q, lag)
    case RunNext =>
      var x := q.phase.expired[q.phase.next];
      q.(phase := Running(q.phase.expired, q.phase.next + 1),
         calls := q.calls + [Call(x.id, q.clock, x.when, q.table[x.id].repeat)])
    case EndRun => q.(phase := Resetting(q.phase.expired, 0))
    case ResetNext => ResetOne(q)
    case EndReset => q.(phase := Idle)
  }

  ghost predicate StepAt(ss: seq<Queue>, es: seq<Event>, i: nat)
    requires i < |es| < |ss|
  {
    Enabled(ss[i], es[i]) && ss[i + 1] == Apply(ss[i], es[i])
  }

  ghost predicate IsRun(clock: int, ss: seq<Queue>, es: seq<Event>) {
    |ss| == |es| + 1 && ss[0] == Start(clock) && forall i | 0 <= i < |es| :: StepAt(ss, es, i)
  }

  // ---------------------------------------------------------------- the invariant

  /** The entries taken out and not yet put back or freed. */
  function Out(q: Queue): seq<Entry> {
    match q.phase
    case Idle => []
    case Running(x, _) => x
    case Resetting(x, n) => if n <= |x| then x[n..] else []
  }

  /** The entries whose callback is still to come. */
  function ToRun(q: Queue): seq<Entry> {
    if q.phase.Running? && q.phase.next <= |q.phase.expired| then q.phase.expired[q.phase.next..] else []
  }

  /** The entry under which a timer stands. */
  function Key(table: map<nat, Timer>, id: nat): Entry
    requires id in table
  {
    Entry(table[id].expiration, id)
  }

  /** Every entry stands under its timer's expiration. */
  ghost predicate Keyed(s: seq<Entry>, table: map<nat, Timer>) {
    forall e | e in s :: e.id in table && e == Key(table, e.id)
  }

  /** Every allocated timer is in exactly one place; in a sorted place it is there once. */
  ghost predicate Once(timers: seq<Entry>, out: seq<Entry>, table: map<nat, Timer>) {
    && (forall e | e in out :: e !in timers)
    && (forall id | id in table :: Key(table, id) in timers || Key(table, id) in out)
  }

  ghost predicate PlacedAt(timers: seq<Entry>, out: seq<Entry>, table: map<nat, Timer>, clock: int, unused: nat) {
    && Sorted(timers) && Sorted(out)
    && Keyed(timers, table) && Keyed(out, table) && Once(timers, out, table)
    && (forall e | e in out :: e.when <= clock)
    && (forall id | id in table :: id < unused)
  }

  ghost predicate Placed(q: Queue) { PlacedAt(q.timers, Out(q), q.table, q.clock, q.unused) }

  /** The kernel timer is set for the first entry, or for 100 microseconds after it was set if
      that is later. */
  predicate Armed(q: Queue) {
    q.timers != [] ==> q.fd == Some(Max(q.timers[0].when, q.armedAt + 100))
  }

  /** It is set unless its firing was spent. */
  predicate Watched(q: Queue) {
    q.spent || Armed(q)
  }

  /** Otherwise it may be unset only while there is an expired timer still to be put back or
      freed. */
  predicate Phased(q: Queue) {
    Signals(q) &&
    match q.phase
    case Idle => Watched(q)
    case Running(x, n) => n <= |x| && (x == [] ==> Watched(q))
    case Resetting(x, n) => n <= |x| && (x == [] || n > 0 ==> Watched(q))
  }

  /** What the flags say about the kernel timer. */
  predicate Signals(q: Queue) {
    && q.armedAt <= q.clock && (q.spent ==> q.fd.None? && !q.reported)
    && (q.reported && !q.rearmed ==> Fired(q, q.clock))
  }

  /** Callbacks never run early, and a one-shot timer that has run does not wait to run again. */
  ghost predicate Called(calls: seq<Call>, timers: seq<Entry>, toRun: seq<Entry>, table: map<nat, Timer>, unused: nat) {
    && (forall c | c in calls :: c.due <= c.at && c.id < unused && Kept(c, table))
    && (forall c, e | c in calls && e in timers && c.id == e.id :: c.repeat)
    && (forall c, e | c in calls && e in toRun && c.id == e.id :: c.repeat)
    && OneShotOnce(calls)
  }

  /** A timer that has run and repeats is allocated; one that is allocated repeats as it did. */
  predicate Kept(c: Call, table: map<nat, Timer>) {
    if c.id in table then c.repeat == table[c.id].repeat else !c.repeat
  }

  ghost predicate OneShotOnce(calls: seq<Call>) {
    forall i, j | 0 <= i < j < |calls| :: calls[i].id == calls[j].id ==> calls[i].repeat && calls[j].repeat
  }

  ghost predicate Accounted(q: Queue) { Called(q.calls, q.timers, ToRun(q), q.table, q.unused) }

  // ---------------------------------------------------------------- adding a timer

  /** Entries keep their keys when a timer that none of them has gets its own. */
  lemma KeyedElsewhere(s: seq<Entry>, table: map<nat, Timer>, id: nat, t: Timer)
    requires Keyed(s, table) && forall e | e in s :: e.id != id
    ensures Keyed(s, table[id := t]) && Keyed(s, table - {id})
  {
  }

  /** What addTimerInLoop does apart from arming the timerfd. */
  lemma AddEntries(q: Queue, t: Timer)
    requires q.phase.Idle? || q.phase.Running?
    ensures
      var r := AddTimer(q, t);
      && r.timers == Insert(q.timers, Entry(t.expiration, q.unused)) && r.table == q.table[q.unused := t]
      && r.unused == q.unused + 1 && Out(r) == Out(q) && ToRun(r) == ToRun(q) && r.clock == q.clock && r.calls == q.calls
  {
  }

  lemma AddedPlaced(timers: seq<Entry>, out: seq<Entry>, table: map<nat, Timer>, clock: int, id: nat, t: Timer)
    requires PlacedAt(timers, out, table, clock, id)
    ensures PlacedAt(Insert(timers, Entry(t.expiration, id)), out, table[id := t], clock, id + 1)
  {
    InsertSorted(timers, Entry(t.expiration, id));
    InsertMembers(timers, Entry(t.expiration, id));
    KeyedElsewhere(timers, table, id, t);
    KeyedElsewhere(out, table, id, t);
  }

  lemma AddPlaced(q: Queue, t: Timer)
    requires Placed(q) && (q.phase.Idle? || q.phase.Running?)
    ensures Placed(AddTimer(q, t))
  {
    AddedPlaced(q.timers, Out(q), q.table, q.clock, q.unused, t);
    AddEntries(q, t);
  }

  /** The first key after an insertion. */
  lemma InsertFirst(s: seq<Entry>, e: Entry)
    ensures Insert(s, e) != []
    ensures Insert(s, e)[0].when == if s == [] || e.when < s[0].when then e.when else s[0].when
  {
  }

  lemma AddPhased(q: Queue, t: Timer)
    requires Phased(q) && (q.phase.Idle? || q.phase.Running?)
    ensures Phased(AddTimer(q, t))
  {
    InsertFirst(q.timers, Entry(t.expiration, q.unused));
  }

  /** A new timer has not been called. */
  lemma CalledAdded(calls: seq<Call>, timers: seq<Entry>, toRun: seq<Entry>, table: map<nat, Timer>, unused: nat, t: Timer)
    requires Called(calls, timers, toRun, table, unused) && unused !in table
    ensures Called(calls, Insert(timers, Entry(t.expiration, unused)), toRun, table[unused := t], unused + 1)
  {
    InsertMembers(timers, Entry(t.expiration, unused));
  }

  lemma AddCalled(q: Queue, t: Timer)
    requires Accounted(q) && Placed(q) && (q.phase.Idle? || q.phase.Running?)
    ensures Accounted(AddTimer(q, t))
  {
    CalledAdded(q.calls, q.timers, ToRun(q), q.table, q.unused, t);
    AddEntries(q, t);
  }

  // ---------------------------------------------------------------- taking out what is due

  lemma TakePlaced(timers: seq<Entry>, k: nat, table: map<nat, Timer>, clock: int, unused: nat)
    requires PlacedAt(timers, [], table, clock, unused) && k <= |timers| && forall i | 0 <= i < k :: timers[i].when <= clock
    ensures PlacedAt(timers[k..], timers[..k], table, clock, unused)
  {
    assert timers == timers[..k] + timers[k..];
    forall e | e in timers[..k] ensures e !in timers[k..] && e.when <= clock {
      var i :| 0 <= i < k && timers[i] == e;
    }
  }

  lemma LaterPlaced(timers: seq<Entry>, out: seq<Entry>, table: map<nat, Timer>, clock: int, later: int, unused: nat)
    requires PlacedAt(timers, out, table, clock, unused) && clock <= later
    ensures PlacedAt(timers, out, table, later, unused)
  {
  }

  lemma HandlePlaced(q: Queue, lag: nat)
    requires Placed(q) && q.phase.Idle?
    ensures Placed(Begin(q, lag))
  {
    var k := Due(q.timers, q.clock);
    DueFacts(q.timers, q.clock);
    TakePlaced(q.timers, k, q.table, q.clock, q.unused);
    LaterPlaced(q.timers[k..], q.timers[..k], q.table, q.clock, q.clock + lag, q.unused);
  }

  lemma HandlePhased(q: Queue, lag: nat)
    requires Phased(q) && q.phase.Idle? && q.reported
    ensures Phased(Begin(q, lag))
  {
  }

  /** Entries that leave the set are to be called. */
  lemma CalledTaken(calls: seq<Call>, timers: seq<Entry>, k: nat, table: map<nat, Timer>, unused: nat)
    requires Called(calls, timers, [], table, unused) && k <= |timers|
    ensures Called(calls, timers[k..], timers[..k], table, unused)
  {
    assert timers == timers[..k] + timers[k..];
  }

  lemma HandleCalled(q: Queue, lag: nat)
    requires Accounted(q) && q.phase.Idle?
    ensures Accounted(Begin(q, lag))
  {
    var k := Due(q.timers, q.clock);
    CalledTaken(q.calls, q.timers, k, q.table, q.unused);
    assert q.timers[..k][0..] == q.timers[..k];
  }

  // ---------------------------------------------------------------- running one callback

  lemma CallsGrow(calls: seq<Call>, timers: seq<Entry>, x: Entry, after: seq<Entry>, table: map<nat, Timer>, unused: nat, c: Call)
    requires Called(calls, timers, [x] + after, table, unused) && c.id == x.id
    requires c.due <= c.at && c.id < unused && c.id in table && c.repeat == table[c.id].repeat
    requires (forall e | e in timers :: e.id != x.id) && (forall e | e in after :: e.id != x.id)
    ensures Called(calls + [c], timers, after, table, unused)
  {
    assert x in [x] + after && forall e | e in after :: e in [x] + after;
    forall i | 0 <= i < |calls| ensures calls[i].id == c.id ==> calls[i].repeat && c.repeat {
      assert calls[i] in calls && Kept(calls[i], table);
    }
  }

  /** The timer about to run is only there, and once. */
  lemma NextAlone(timers: seq<Entry>, out: seq<Entry>, table: map<nat, Timer>, clock: int, unused: nat, n: nat)
    requires PlacedAt(timers, out, table, clock, unused) && n < |out|
    ensures out[n].when <= clock && out[n].id in table && out[n].id < unused
    ensures (forall e | e in timers :: e.id != out[n].id) && (forall e | e in out[n + 1..] :: e.id != out[n].id)
  {
    var x := out[n];
    assert x in out && x !in timers;
    forall e | e in out[n + 1..] ensures e.id != x.id {
      var j :| n < j < |out| && out[j] == e;
      assert Less(x, e) && e in out;
    }
  }

  lemma RunCalled(q: Queue)
    requires Accounted(q) && Placed(q) && Enabled(q, RunNext)
    ensures Accounted(Apply(q, RunNext))
  {
    var n, x := q.phase.next, q.phase.expired[q.phase.next];
    NextAlone(q.timers, q.phase.expired, q.table, q.clock, q.unused, n);
    assert ToRun(q) == [x] + q.phase.expired[n + 1..];
    CallsGrow(q.calls, q.timers, x, q.phase.expired[n + 1..], q.table, q.unused,
              Call(x.id, q.clock, x.when, q.table[x.id].repeat));
  }

  // ---------------------------------------------------------------- putting back or freeing one

  /** The first entry of `out` leaves it and is freed. */
  lemma HeadFreed(timers: seq<Entry>, out: seq<Entry>, table: map<nat, Timer>, clock: int, unused: nat)
    requires PlacedAt(timers, out, table, clock, unused) && out != []
    ensures PlacedAt(timers, out[1..], table - {out[0].id}, clock, unused)
  {
    NextAlone(timers, out, table, clock, unused, 0);
    SortedTail(out);
    KeyedElsewhere(timers, table, out[0].id, table[out[0].id]);
    KeyedElsewhere(out[1..], table, out[0].id, table[out[0].id]);
  }

  /** It leaves `out` and is put back under a new expiration. */
  lemma HeadBack(timers: seq<Entry>, out: seq<Entry>, table: map<nat, Timer>, clock: int, unused: nat, t: Timer)
    requires PlacedAt(timers, out, table, clock, unused) && out != []
    ensures
      var id := out[0].id;
      PlacedAt(Insert(timers, Entry(t.expiration, id)), out[1..], table[id := t], clock, unused)
  {
    var id := out[0].id;
    NextAlone(timers, out, table, clock, unused, 0);
    SortedTail(out);
    KeyedElsewhere(timers, table, id, t);
    KeyedElsewhere(out[1..], table, id, t);
    InsertSorted(timers, Entry(t.expiration, id));
    InsertMembers(timers, Entry(t.expiration, id));
  }

  lemma PutBackPlaced(q: Queue)
    requires Placed(q) && Enabled(q, ResetNext)
    ensures Placed(PutBack(q))
  {
    var id := q.phase.expired[q.phase.next].id;
    assert Out(PutBack(q)) == Out(q)[1..];
    if q.table[id].repeat {
      HeadBack(q.timers, Out(q), q.table, q.clock, q.unused, Restart(q.table[id], q.clock));
    } else {
      HeadFreed(q.timers, Out(q), q.table, q.clock, q.unused);
    }
  }

  /** A repeating timer goes back. */
  lemma CalledBack(calls: seq<Call>, timers: seq<Entry>, table: map<nat, Timer>, unused: nat, id: nat, t: Timer)
    requires Called(calls, timers, [], table, unused) && id in table && table[id].repeat && t.repeat
    ensures Called(calls, Insert(timers, Entry(t.expiration, id)), [], table[id := t], unused)
  {
    InsertMembers(timers, Entry(t.expiration, id));
    forall c | c in calls && c.id == id ensures c.repeat {
      assert Kept(c, table);
    }
  }

  /** A one-shot timer is freed. */
  lemma CalledFreed(calls: seq<Call>, timers: seq<Entry>, table: map<nat, Timer>, unused: nat, id: nat)
    requires Called(calls, timers, [], table, unused) && id in table && !table[id].repeat
    ensures Called(calls, timers, [], table - {id}, unused)
  {
    forall c | c in calls ensures Kept(c, table - {id}) {
      assert Kept(c, table);
    }
  }

  lemma PutBackCalled(q: Queue)
    requires Accounted(q) && Enabled(q, ResetNext)
    ensures Accounted(ResetOne(q))
  {
    var id := q.phase.expired[q.phase.next].id;
    if q.table[id].repeat {
      CalledBack(q.calls, q.timers, q.table, q.unused, id, Restart(q.table[id], q.clock));
    } else {
      CalledFreed(q.calls, q.timers, q.table, q.unused, id);
    }
  }

  lemma RearmPlaced(q: Queue)
    requires Placed(q)
    ensures Placed(Rearm(q))
  {
    assert Out(Rearm(q)) == Out(q);
  }

  lemma RearmPhased(q: Queue)
    requires Signals(q) && q.phase.Resetting? && 0 < q.phase.next <= |q.phase.expired|
    ensures Phased(Rearm(q))
  {
  }

  // ---------------------------------------------------------------- every step keeps it

  /** Steps that move no entry. */
  predicate Quiet(e: Event) { e.Tick? || e.Report? || e.EndRun? || e.EndReset? || e.RunNext? }

  lemma QuietEntries(q: Queue, e: Event)
    requires Enabled(q, e) && Quiet(e) && Phased(q)
    ensures
      var r := Apply(q, e);
      && Out(r) == Out(q) && r.clock >= q.clock && r.timers == q.timers && r.table == q.table && r.unused == q.unused
      && (!e.RunNext? ==> ToRun(r) == ToRun(q) && r.calls == q.calls)
  {
  }

  lemma PhasedStep(q: Queue, e: Event)
    requires Phased(q) && Enabled(q, e)
    ensures Phased(Apply(q, e))
  {
    match e
    case Add(t) => AddPhased(q, t);
    case Handle(lag) => HandlePhased(q, lag);
    case ResetNext => RearmPhased(PutBack(q));
    case _ =>
  }

  lemma PlacedStep(q: Queue, e: Event)
    requires Placed(q) && Phased(q) && Enabled(q, e)
    ensures Placed(Apply(q, e))
  {
    match e
    case Add(t) => AddPlaced(q, t);
    case Handle(lag) => HandlePlaced(q, lag);
    case ResetNext =>
      PutBackPlaced(q);
      RearmPlaced(PutBack(q));
    case _ => QuietEntries(q, e);
  }

  lemma CalledStep(q: Queue, e: Event)
    requires Accounted(q) && Placed(q) && Phased(q) && Enabled(q, e)
    ensures Accounted(Apply(q, e))
  {
    match e
    case Add(t) => AddCalled(q, t);
    case Handle(lag) => HandleCalled(q, lag);
    case RunNext => RunCalled(q);
    case ResetNext => PutBackCalled(q);
    case _ => QuietEntries(q, e);
  }

  /** The flags and the kernel timer, in every state of every run. */
  lemma {:induction false} PhasedInRun(clock: int, ss: seq<Queue>, es: seq<Event>, i: nat)
    requires IsRun(clock, ss, es) && i < |ss|
    ensures Phased(ss[i])
  {
    if i > 0 {
      PhasedInRun(clock, ss, es, i - 1);
      assert StepAt(ss, es, i - 1);
      PhasedStep(ss[i - 1], es[i - 1]);
    }
  }

  /** The ordered set, the entries taken out and the allocated timers. */
  lemma {:induction false} PlacedInRun(clock: int, ss: seq<Queue>, es: seq<Event>, i: nat)
    requires IsRun(clock, ss, es) && i < |ss|
    ensures Placed(ss[i])
  {
    if i > 0 {
      PlacedInRun(clock, ss, es, i - 1);
      PhasedInRun(clock, ss, es, i - 1);
      assert StepAt(ss, es, i - 1);
      PlacedStep(ss[i - 1], es[i - 1]);
    }
  }

  lemma CalledNext(clock: int, ss: seq<Queue>, es: seq<Event>, i: nat)
    requires IsRun(clock, ss, es) && i < |es| && Accounted(ss[i])
    ensures Accounted(ss[i + 1])
  {
    PlacedInRun(clock, ss, es, i);
    PhasedInRun(clock, ss, es, i);
    assert StepAt(ss, es, i);
    CalledStep(ss[i], es[i]);
  }

  /** The callbacks that have run. */
  lemma {:induction false} CalledInRun(clock: int, ss: seq<Queue>, es: seq<Event>, i: nat)
    requires IsRun(clock, ss, es) && i < |ss|
    ensures Accounted(ss[i])
  {
    if i > 0 {
      CalledInRun(clock, ss, es, i - 1);
      CalledNext(clock, ss, es, i - 1);
    }
  }

  ghost predicate Reachable(clock: int, q: Queue) {
    exists ss, es :: IsRun(clock, ss, es) && q == ss[|es|]
  }

  lemma ReachStart(clock: int)
    ensures Reachable(clock, Start(clock))
  {
    assert IsRun(clock, [Start(clock)], []);
  }

  /** Any run can be extended by an enabled step. */
  lemma ExtendRun(clock: int, ss: seq<Queue>, es: seq<Event>, e: Event) returns (ss': seq<Queue>, es': seq<Event>)
    requires IsRun(clock, ss, es) && Enabled(ss[|es|], e)
    ensures IsRun(clock, ss', es') && ss'[|es'|] == Apply(ss[|es|], e)
  {
    ss', es' := ss + [Apply(ss[|es|], e)], es + [e];
    forall i | 0 <= i < |es'| ensures StepAt(ss', es', i) {
      if i < |es| {
        assert StepAt(ss, es, i);
      }
    }
  }

  lemma ReachStep(clock: int, q: Queue, e: Event)
    requires Reachable(clock, q) && Enabled(q, e)
    ensures Reachable(clock, Apply(q, e))
  {
    var ss, es :| IsRun(clock, ss, es) && q == ss[|es|];
    var ss', es' := ExtendRun(clock, ss, es, e);
  }

  // ---------------------------------------------------------------- what it promises

  lemma IdOf(s: seq<Entry>, e: Entry)
    requires e in s
    ensures e.id in Ids(s)
  {
    var i :| 0 <= i < |s| && s[i] == e;
    assert Ids(s)[i] == e.id;
  }

  /** Between operations every key of the set is its timer's expiration and every allocated timer
      is in the set. */
  lemma SetBetweenOperations(clock: int, ss: seq<Queue>, es: seq<Event>, i: nat)
    requires IsRun(clock, ss, es) && i < |ss| && ss[i].phase.Idle?
    ensures Sorted(ss[i].timers) && Keyed(ss[i].timers, ss[i].table)
    ensures forall id | id in ss[i].table :: id in Ids(ss[i].timers)
  {
    PlacedInRun(clock, ss, es, i);
    forall id | id in ss[i].table ensures id in Ids(ss[i].timers) {
      IdOf(ss[i].timers, Key(ss[i].table, id));
    }
  }

  /** The step sets the kernel timer. */
  predicate Arms(q: Queue, e: Event)
    requires Enabled(q, e)
  {
    match e
    case Add(t) => q.timers == [] || t.expiration < q.timers[0].when
    case ResetNext => PutBack(q).timers != []
    case _ => false
  }

  /** Step `k` read the timerfd for nothing, and no later step before `i` has set it again. */
  ghost predicate SpentAt(ss: seq<Queue>, es: seq<Event>, k: nat, i: nat)
    requires k < i <= |es| < |ss|
  {
    && es[k].Handle? && Spends(ss[k], es[k].lag)
    && forall j | k < j < i :: Enabled(ss[j], es[j]) && !Arms(ss[j], es[j])
  }

  lemma SpentStep(q: Queue, e: Event)
    requires Enabled(q, e)
    ensures Apply(q, e).spent == ((e.Handle? && Spends(q, e.lag)) || (q.spent && !Arms(q, e)))
  {
  }

  lemma {:induction false} SpentMeans(clock: int, ss: seq<Queue>, es: seq<Event>, i: nat)
    requires IsRun(clock, ss, es) && i < |ss|
    ensures ss[i].spent <==> exists k | 0 <= k < i :: SpentAt(ss, es, k, i)
  {
    if i > 0 {
      var p := i - 1;
      SpentMeans(clock, ss, es, p);
      assert StepAt(ss, es, p);
      SpentStep(ss[p], es[p]);
      if es[p].Handle? && Spends(ss[p], es[p].lag) {
        assert SpentAt(ss, es, p, i);
      } else if ss[i].spent {
        var k :| 0 <= k < p && SpentAt(ss, es, k, p);
        assert SpentAt(ss, es, k, i);
      }
      if k :| 0 <= k < i && SpentAt(ss, es, k, i) && k < p {
        assert SpentAt(ss, es, k, p);
      }
    }
  }

  /** Between operations the kernel timer is set for the earliest timer, or for 100 microseconds
      after it was set, if and only if no handleRead has spent its firing since it was set. */
  lemma ArmedBetweenOperations(clock: int, ss: seq<Queue>, es: seq<Event>, i: nat)
    requires IsRun(clock, ss, es) && i < |ss| && ss[i].phase.Idle? && ss[i].timers != []
    ensures Armed(ss[i]) <==> forall k | 0 <= k < i :: !SpentAt(ss, es, k, i)
  {
    PhasedInRun(clock, ss, es, i);
    SpentMeans(clock, ss, es, i);
  }

  /** When the timerfd has fired and the set is not empty, the first entry is due. */
  lemma FiredMeansDue(clock: int, ss: seq<Queue>, es: seq<Event>, i: nat)
    requires IsRun(clock, ss, es) && i < |ss| && ss[i].phase.Idle? && ss[i].timers != [] && Fired(ss[i], ss[i].clock)
    ensures Due(ss[i].timers, ss[i].clock) > 0
  {
    PhasedInRun(clock, ss, es, i);
  }

  /** So a firing can be spent only if the timerfd was set again between poll's report and
      handleRead: by an earlier handler of the same round that added the earliest timer. */
  lemma SpendsOnlyAfterRearm(clock: int, ss: seq<Queue>, es: seq<Event>, k: nat)
    requires IsRun(clock, ss, es) && k < |es| && es[k].Handle? && Spends(ss[k], es[k].lag)
    ensures ss[k].rearmed
  {
    PhasedInRun(clock, ss, es, k);
    assert StepAt(ss, es, k);
    if !ss[k].rearmed {
      FiredMeansDue(clock, ss, es, k);
    }
  }

  lemma Reached(clock: int, q: Queue, e: Event) returns (r: Queue)
    requires Reachable(clock, q) && Enabled(q, e)
    ensures Reachable(clock, r) && r == Apply(q, e)
  {
    ReachStep(clock, q, e);
    r := Apply(q, e);
  }

  /** Two one-shot timers, the second added when poll had already reported the timerfd … */
  lemma BothAdded() returns (q: Queue)
    ensures Reachable(0, q)
    ensures q.clock == 100 && q.fd == Some(200) && !q.spent && q.reported && q.phase == Idle
    ensures q.timers == [Entry(-1, 1), Entry(0, 0)]
    ensures 0 in q.table && 1 in q.table && !q.table[0].repeat && !q.table[1].repeat
  {
    ReachStart(0);
    q := Start(0);
    q := Reached(0, q, Add(Timer(0, 0, false)));
    assert q.timers == [Entry(0, 0)] && q.fd == Some(100);
    q := Reached(0, q, Tick(100));
    q := Reached(0, q, Report);
    q := Reached(0, q, Add(Timer(-1, 0, false)));
  }

  /** … are taken out by one handleRead. */
  lemma BothTaken() returns (q: Queue)
    ensures Reachable(0, q)
    ensures q.clock == 100 && q.timers == [] && q.fd == Some(200) && !q.spent && !q.reported
    ensures q.phase == Running([Entry(-1, 1), Entry(0, 0)], 0)
    ensures 0 in q.table && 1 in q.table && !q.table[0].repeat && !q.table[1].repeat
  {
    q := BothAdded();
    assert q.timers[1..] == [Entry(0, 0)] && q.timers[1..][1..] == [];
    assert Due(q.timers, 100) == 2;
    q := Reached(0, q, Handle(0));
  }

  /** They run and are freed: the set is empty, and the timerfd is still to fire. */
  lemma EmptyButArmed() returns (q: Queue)
    ensures Reachable(0, q)
    ensures q.clock == 100 && q.timers == [] && q.phase == Idle && q.fd == Some(200) && !q.spent
  {
    q := BothTaken();
    q := Reached(0, q, RunNext);
    q := Reached(0, q, RunNext);
    q := Reached(0, q, EndRun);
    q := Reached(0, q, ResetNext);
    q := Reached(0, q, ResetNext);
    q := Reached(0, q, EndReset);
  }

  /** A timer can be lost: the stale firing is reported, a handler of that round adds a timer, and
      the timerfd fires for it just between the two readings of handleRead. Nothing will call
      handleRead again, although the timer is due. */
  lemma TimerCanBeLost() returns (q: Queue)
    ensures Reachable(0, q) && q.phase.Idle? && !q.reported
    ensures q.timers != [] && q.timers[0].when <= q.clock && q.fd.None?
  {
    q := EmptyButArmed();
    q := Reached(0, q, Tick(100));
    q := Reached(0, q, Report);
    q := Reached(0, q, Add(Timer(350, 0, false)));
    assert q.timers == [Entry(350, q.unused - 1)] && q.fd == Some(350);
    q := Reached(0, q, Tick(149));
    assert Due(q.timers, q.clock) == 0;
    q := Reached(0, q, Handle(1));
    q := Reached(0, q, EndRun);
    q := Reached(0, q, EndReset);
  }

  /** The pointers in the expired list are alive as long as they are used: in every reachable
      state the next callback can run, and the next timer can be put back or freed. */
  lemma NoDanglingTimer(clock: int, q: Queue)
    requires Reachable(clock, q) && !q.phase.Idle? && q.phase.next < |q.phase.expired|
    ensures Enabled(q, if q.phase.Running? then RunNext else ResetNext)
  {
    var ss, es :| IsRun(clock, ss, es) && q == ss[|es|];
    PlacedInRun(clock, ss, es, |es|);
    assert q.phase.expired[q.phase.next] in Out(q) by {
      assert q.phase.expired[q.phase.next..][0] == q.phase.expired[q.phase.next];
    }
  }

  /** No callback runs before its time, and a one-shot timer's runs at most once. */
  lemma OnTimeAndOnce(clock: int, ss: seq<Queue>, es: seq<Event>, i: nat, a: nat)
    requires IsRun(clock, ss, es) && i < |ss| && a < |ss[i].calls|
    ensures ss[i].calls[a].due <= ss[i].calls[a].at
    ensures forall b | 0 <= b < |ss[i].calls| && b != a && ss[i].calls[b].id == ss[i].calls[a].id ::
      ss[i].calls[a].repeat
  {
    CalledInRun(clock, ss, es, i);
    assert ss[i].calls[a] in ss[i].calls;
  }

  /** Between operations a timer that has run is gone if it was one-shot, and back in the set if
      it repeats. */
  lemma FreedOrBack(clock: int, ss: seq<Queue>, es: seq<Event>, i: nat, a: nat)
    requires IsRun(clock, ss, es) && i < |ss| && ss[i].phase.Idle? && a < |ss[i].calls|
    ensures var c := ss[i].calls[a]; if c.repeat then c.id in Ids(ss[i].timers) else c.id !in ss[i].table
  {
    CalledInRun(clock, ss, es, i);
    PlacedInRun(clock, ss, es, i);
    var c := ss[i].calls[a];
    assert c in ss[i].calls && Kept(c, ss[i].table);
    if c.repeat {
      IdOf(ss[i].timers, Key(ss[i].table, c.id));
    }
  }
}
