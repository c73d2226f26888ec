/**
 What the handlers of a connection do to the byte stream and to the life of the connection,
 step by step and over whole runs.
 */
module ConnectionHistory {
  import opened Options
  import opened ConnectionModel

  predicate Open(c: Conn) { c.st == Connected || c.st == Disconnecting }

  // ---------------------------------------------------------------- the stream

  /** All the bytes that the writes of one handleWrite take. */
  function Total(ns: seq<nat>): nat {
    if ns == [] then 0 else ns[0] + Total(ns[1..])
  }

  /** Everything but the stream, the channel and the half-close. */
  predicate SameLife(c: Conn, d: Conn) {
    d == c.(taken := d.taken, out := d.out, chan := d.chan, shut := d.shut)
  }

  lemma WriteOnceOut(c: Conn, n: nat)
    requires 0 < n <= |c.out|
    ensures
      var d := WriteOnce(c, n);
      && SameLife(c, d) && d.taken == c.taken + c.out[..n] && d.out == c.out[n..]
      && (n < |c.out| ==> d.chan == c.chan && d.shut == c.shut)
      && (n == |c.out| ==> !d.chan.mask.write && d.shut == c.shut + if c.st == Disconnecting then 1 else 0)
  {
  }

  lemma {:induction false} WriteLoopOut(c: Conn, ns: seq<nat>)
    requires Drains(|c.out|, ns)
    ensures Total(ns) <= |c.out|
    ensures
      var n, d := Total(ns), WriteLoop(c, ns);
      && SameLife(c, d) && d.taken == c.taken + c.out[..n] && d.out == c.out[n..]
      && (n < |c.out| ==> d.chan == c.chan && d.shut == c.shut)
      && (n == |c.out| && c.out != "" ==>
           !d.chan.mask.write && d.shut == c.shut + if c.st == Disconnecting then 1 else 0)
    decreases ns
  {
    if ns == [] {
      assert c.out[..0] == "" && c.out[0..] == c.out && c.taken + "" == c.taken;
    } else {
      var k, rest := ns[0], Total(ns[1..]);
      var b := WriteOnce(c, k);
      WriteOnceOut(c, k);
      WriteLoopOut(b, ns[1..]);
      assert c.out[..k + rest] == c.out[..k] + c.out[k..][..rest];
      assert c.out[k..][rest..] == c.out[k + rest..];
      assert c.taken + c.out[..k] + c.out[k..][..rest] == c.taken + (c.out[..k] + c.out[k..][..rest]);
    }
  }

  /** With write interest on, handleWrite gives the kernel the first bytes that wait, as many as
      its writes took, and keeps the rest; when none are left it drops its interest and, in a
      half-closed connection, closes the write side. Without interest it does nothing. */
  lemma WritesOut(c: Conn, ns: seq<nat>)
    requires Drains(|c.out|, ns)
    ensures Total(ns) <= |c.out|
    ensures
      var n, d := Total(ns), HandleWrite(c, ns);
      if !c.chan.mask.write then d == c else
        && SameLife(c, d) && d.taken == c.taken + c.out[..n] && d.out == c.out[n..]
        && (n < |c.out| ==> d.chan.mask.write && d.shut == c.shut)
        && (n == |c.out| && c.out != "" ==>
             !d.chan.mask.write && d.shut == c.shut + if c.st == Disconnecting then 1 else 0)
  {
    WriteLoopOut(c, ns);
  }

  /** A send splits its bytes between kernel and buffer: the kernel gets what a direct write took,
      and there is one only if nothing waits and nobody waits to write; the buffer gets the rest,
      unless that write found the connection broken; and interest is on afterwards exactly if it
      was before or bytes were added. */
  lemma SendSplits(c: Conn, data: string, w: Written)
    requires w.Wrote? ==> w.n <= |data|
    ensures
      var d, direct := SendInLoop(c, data, w), !c.chan.mask.write && c.out == "";
      && d.taken == c.taken + (if direct && w.Wrote? then data[..w.n] else "")
      && d.out == c.out + (if !direct || w.Refused? then data else if w.Wrote? then data[w.n..] else "")
      && (d.chan.mask.write <==> c.chan.mask.write || |d.out| > |c.out|)
      && d.st == c.st && d.shut == c.shut && d.destroys == c.destroys && d.destroyed == c.destroyed
  {
    assert c.taken + "" == c.taken;
  }

  /** What was passed to send while the connection was up, in order. */
  ghost function Sent(ss: seq<Conn>, es: seq<Event>, i: nat): string
    requires i <= |es| < |ss|
  {
    if i == 0 then "" else
      Sent(ss, es, i - 1) + if es[i - 1].Sending? && ss[i - 1].st == Connected then es[i - 1].data else ""
  }

  lemma AskedStep(c: Conn, e: Event)
    requires Enabled(c, e)
    ensures Apply(c, e).asked == c.asked + if e.Sending? && c.st == Connected then e.data else ""
  {
    assert c.asked + "" == c.asked;
    if e.Writable? {
      WritesOut(c, e.ns);
    }
  }

  lemma {:induction false} AskedIsSent(ss: seq<Conn>, es: seq<Event>, i: nat)
    requires IsRun(ss, es) && i < |ss|
    ensures ss[i].asked == Sent(ss, es, i)
  {
    if i > 0 {
      AskedIsSent(ss, es, i - 1);
      assert StepAt(ss, es, i - 1);
      AskedStep(ss[i - 1], es[i - 1]);
    }
  }

  /** So the stream is what the schedule sent: what the kernel has and what waits is the
      concatenation of the sends, exactly if none of them was dropped. */
  lemma StreamIsSent(ss: seq<Conn>, es: seq<Event>, i: nat)
    requires IsRun(ss, es) && i < |ss|
    ensures ss[i].taken + ss[i].out == Sent(ss, es, i) <==> forall k | 0 <= k < i :: !Drops(ss[k], es[k])
  {
    AskedIsSent(ss, es, i);
    StreamKept(ss, es, i);
  }

  /** In every run, a writable event on an open connection moves as many bytes as its writes took
      from the buffer to the kernel. If that is all of them, nothing waits any more, the kernel is
      no longer asked for writability, a half-closed connection has its write side closed, and
      unless a send was dropped the kernel has everything that was sent. */
  lemma WritableDrains(ss: seq<Conn>, es: seq<Event>, i: nat)
    requires IsRun(ss, es) && i < |es| && es[i].Writable? && Open(ss[i])
    ensures Total(es[i].ns) <= |ss[i].out|
    ensures
      var n, c, d := Total(es[i].ns), ss[i], ss[i + 1];
      && d.taken == c.taken + c.out[..n] && d.out == c.out[n..] && d.st == c.st
      && (n == |c.out| ==>
           && d.out == "" && d.chan.kernel.Some? && !d.chan.kernel.value.write
           && (d.st == Disconnecting ==> d.shut == 1)
           && ((forall k | 0 <= k <= i :: !Drops(ss[k], es[k])) ==> d.taken == Sent(ss, es, i + 1)))
  {
    var n, c, d := Total(es[i].ns), ss[i], ss[i + 1];
    assert StepAt(ss, es, i);
    InvInRun(ss, es, i);
    InvInRun(ss, es, i + 1);
    WritesOut(c, es[i].ns);
    if !c.chan.mask.write {
      assert c.taken + c.out[..n] == c.taken && c.out[n..] == c.out;
    }
    if n == |c.out| {
      InterestExact(ss, es, i + 1);
      StreamIsSent(ss, es, i + 1);
      assert d.taken + d.out == d.taken;
    }
  }

  // ---------------------------------------------------------------- the life of a connection

  /** What each step does to the state: nothing else opens, half-closes or closes it. */
  lemma StateMoves(ss: seq<Conn>, es: seq<Event>, i: nat)
    requires IsRun(ss, es) && i < |es|
    ensures
      var s, t := ss[i].st, ss[i + 1].st;
      match es[i]
      case Establish => s == Connecting && t == Connected
      case Shutting => t == if s == Connected then Disconnecting else s
      case Closing => t == Disconnected
      case Destroy => t == if s == Connected then Disconnected else s
      case _ => t == s
  {
    assert StepAt(ss, es, i);
    if es[i].Writable? {
      WritesOut(ss[i], es[i].ns);
    }
  }

  function Rank(s: St): nat {
    match s
    case Connecting => 0
    case Connected => 1
    case Disconnecting => 2
    case Disconnected => 3
  }

  /** A connection never goes back to an earlier state. */
  lemma {:induction false} NeverReopens(ss: seq<Conn>, es: seq<Event>, i: nat, j: nat)
    requires IsRun(ss, es) && i <= j < |ss|
    ensures Rank(ss[i].st) <= Rank(ss[j].st)
  {
    if i < j {
      NeverReopens(ss, es, i, j - 1);
      StateMoves(ss, es, j - 1);
    }
  }

  /** How many destructions have been asked for before step `i` … */
  function Asked(es: seq<Event>, i: nat): nat
    requires i <= |es|
  {
    if i == 0 then 0 else Asked(es, i - 1) + if es[i - 1].Closing? || es[i - 1].ServerGone? then 1 else 0
  }

  /** … and how many have run. */
  function Ran(es: seq<Event>, i: nat): nat
    requires i <= |es|
  {
    if i == 0 then 0 else Ran(es, i - 1) + if es[i - 1].Destroy? then 1 else 0
  }

  lemma DestroyStep(c: Conn, e: Event)
    requires Enabled(c, e)
    ensures Apply(c, e).destroys + (if e.Destroy? then 1 else 0) ==
            c.destroys + if e.Closing? || e.ServerGone? then 1 else 0
    ensures Apply(c, e).destroyed <==> c.destroyed || e.Destroy?
  {
    if e.Writable? {
      WritesOut(c, e.ns);
    }
  }

  /** Every close, and every removal by the server, queues one destruction, and only those do. */
  lemma {:induction false} EveryCloseDestroys(ss: seq<Conn>, es: seq<Event>, i: nat)
    requires IsRun(ss, es) && i < |ss|
    ensures ss[i].destroys + Ran(es, i) == Asked(es, i) && (ss[i].destroyed <==> Ran(es, i) > 0)
    ensures ss[i].st == Disconnected ==> Asked(es, i) > 0
  {
    if i > 0 {
      EveryCloseDestroys(ss, es, i - 1);
      assert StepAt(ss, es, i - 1);
      DestroyStep(ss[i - 1], es[i - 1]);
      StateMoves(ss, es, i - 1);
    }
  }

  /** So a connection that is closed has been destroyed or will be: a destruction is queued, and
      once the handlers of this poll are done it can run and takes the channel out for good. */
  lemma ClosedWillBeDestroyed(ss: seq<Conn>, es: seq<Event>, i: nat)
    requires IsRun(ss, es) && i < |ss| && ss[i].st == Disconnected && !ss[i].destroyed
    ensures ss[i].destroys > 0 && (!ss[i].active ==> Enabled(ss[i], Destroy))
    ensures !ss[i].active ==>
      var d := Apply(ss[i], Destroy); d.destroyed && d.chan.kernel.None? && !d.chan.mapped
  {
    EveryCloseDestroys(ss, es, i);
    InvInRun(ss, es, i);
    if !ss[i].active {
      InvStep(ss[i], Destroy);
    }
  }

  /** A close takes a registered channel out of epoll. But updateChannel answers every update of
      a channel that is parked with an ADD, so the next close of the same poll puts it back, with
      an empty mask. */
  lemma CloseToggles(ss: seq<Conn>, es: seq<Event>, i: nat)
    requires IsRun(ss, es) && i < |es| && es[i].Closing?
    ensures ss[i + 1].chan.mask == NONE
    ensures ss[i + 1].chan.kernel == if ss[i].chan.kernel.Some? then None else Some(NONE)
    ensures Open(ss[i]) ==> ss[i + 1].chan.kernel.None?
  {
    InvInRun(ss, es, i);
    assert StepAt(ss, es, i);
    UpdateKeeps(ss[i].chan, NONE);
  }
}
