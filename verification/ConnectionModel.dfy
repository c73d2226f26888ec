/**
 A connection's output path, its channel and the channel's registration with epoll, as one
 state machine on the loop thread. The kernel chooses how much of each write it takes.
 */
module ConnectionModel {
  import opened Options

  // ---------------------------------------------------------------- channel and epoll

  /** The interest mask: edge-triggered, readable, writable. */
  datatype Mask = Mask(et: bool, read: bool, write: bool)

  const NONE := Mask(false, false, false)

  /** The poller's note on the channel: never seen, registered, or parked. */
  datatype Index = New | Added | Deleted

  /** A channel as the poller and the kernel see it. */
  datatype Chan = Chan(
    mask: Mask,
    index: Index,
    mapped: bool,          // in channels_
    kernel: Option<Mask>,  // in the epoll set, with this mask
    faults: nat)           // epoll_ctl calls that failed

  const FRESH := Chan(NONE, New, false, None, 0)

  datatype Ctl = Add | Mod | Del

  /** epoll_ctl: ADD needs an absent descriptor, MOD and DEL a present one. */
  function EpollCtl(c: Chan, op: Ctl): Chan {
    if (op == Add) != c.kernel.None? then c.(faults := c.faults + 1)
    else c.(kernel := if op == Del then None else Some(c.mask))
  }

  /** EPollPoller::updateChannel. */
  function Update(c: Chan): Chan {
    if c.index == New || c.index == Deleted then
      EpollCtl(c.(mapped := c.mapped || c.index == New, index := Added), Add)
    else if c.mask == NONE then
      EpollCtl(c, Del).(index := Deleted)
    else
      EpollCtl(c, Mod)
  }

  /** EPollPoller::removeChannel. */
  function Remove(c: Chan): Chan {
    var d := c.(mapped := false);
    (if c.index == Added then EpollCtl(d, Del) else d).(index := New)
  }

  function EnableWriting(c: Chan): Chan { Update(c.(mask := c.mask.(write := true))) }

  function DisableWriting(c: Chan): Chan { Update(c.(mask := c.mask.(write := false))) }

  function DisableAll(c: Chan): Chan { Update(c.(mask := NONE)) }

  /** No epoll_ctl has failed, and the kernel knows exactly what the poller thinks it knows. */
  ghost predicate Registered(c: Chan) {
    && c.faults == 0
    && (c.index == Added <==> c.kernel.Some?) && (c.kernel.Some? ==> c.kernel.value == c.mask)
    && (c.mapped <==> c.index != New)
  }

  /** One update after any change of the mask, from any state of the index, is legal and leaves
      poller and kernel in agreement. Only an empty mask takes the channel out of epoll, and only
      if it was in. */
  lemma UpdateKeeps(c: Chan, mask: Mask)
    requires Registered(c)
    ensures Registered(Update(c.(mask := mask)))
    ensures Update(c.(mask := mask)).mask == mask && Update(c.(mask := mask)).mapped
    ensures Update(c.(mask := mask)).kernel.None? <==> mask == NONE && c.kernel.Some?
  {
  }

  lemma RemoveKeeps(c: Chan)
    requires Registered(c)
    ensures Registered(Remove(c)) && Remove(c).kernel.None? && !Remove(c).mapped && Remove(c).mask == c.mask
  {
  }

  // ---------------------------------------------------------------- connection

  datatype St = Disconnected | Connecting | Connected | Disconnecting

  datatype Conn = Conn(
    st: St,
    chan: Chan,
    out: string,       // readable bytes of outputBuffer_
    taken: string,     // bytes the kernel has accepted
    asked: string,     // bytes passed to send while connected
    lost: nat,         // bytes dropped after a fatal socket error
    shut: nat,         // calls of shutdownWrite
    active: bool,      // among the active channels of the current dispatch
    destroys: nat,     // queued connectDestroyed calls
    destroyed: bool)   // one of them has run

  function Created(): Conn {
    Conn(Connecting, FRESH, "", "", "", 0, 0, false, 0, false)
  }

  /** What a write of `len` bytes returns: a count, EWOULDBLOCK or another harmless error, or a
      broken connection. */
  datatype Written = Wrote(n: nat) | Refused | Broken

  /** sendInLoop. The write is tried only if nothing waits in front of the data. */
  function SendInLoop(c: Conn, data: string, w: Written): Conn
    requires w.Wrote? ==> w.n <= |data|
  {
    var direct := !c.chan.mask.write && c.out == "";
    var n := if direct && w.Wrote? then w.n else 0;
    if direct && w.Broken? then c.(lost := c.lost + |data|)
    else
      var d := c.(taken := c.taken + data[..n], out := c.out + data[n..]);
      if data[n..] != "" && !c.chan.mask.write then d.(chan := EnableWriting(c.chan)) else d
  }

  function Send(c: Conn, data: string, w: Written): Conn
    requires w.Wrote? ==> w.n <= |data|
  {
    if c.st == Connected then SendInLoop(c, data, w).(asked := c.asked + data) else c
  }

  function ShutdownInLoop(c: Conn): Conn {
    if !c.chan.mask.write then c.(shut := c.shut + 1) else c
  }

  function Shutdown(c: Conn): Conn {
    if c.st == Connected then ShutdownInLoop(c.(st := Disconnecting)) else c
  }

  /** One successful write of handleWrite. */
  function WriteOnce(c: Conn, n: nat): Conn
    requires n <= |c.out|
  {
    var d := c.(taken := c.taken + c.out[..n], out := c.out[n..]);
    if d.out != "" then d
    else
      var e := d.(chan := DisableWriting(d.chan));
      if e.st == Disconnecting then ShutdownInLoop(e) else e
  }

  /** The counts are what the writes of one handleWrite can return before the first that
      returns nothing: each takes at least a byte, and none can once the buffer is empty. */
  predicate Drains(waiting: nat, ns: seq<nat>) {
    ns == [] || (0 < ns[0] <= waiting && Drains(waiting - ns[0], ns[1..]))
  }

  function WriteLoop(c: Conn, ns: seq<nat>): Conn
    requires Drains(|c.out|, ns)
    decreases ns
  {
    if ns == [] then c else WriteLoop(WriteOnce(c, ns[0]), ns[1..])
  }

  function HandleWrite(c: Conn, ns: seq<nat>): Conn
    requires Drains(|c.out|, ns)
  {
    if c.chan.mask.write then WriteLoop(c, ns) else c
  }

  function HandleClose(c: Conn): Conn {
    c.(st := Disconnected, chan := DisableAll(c.chan), destroys := c.destroys + 1)
  }

  function ConnectEstablished(c: Conn): Conn {
    c.(st := Connected, chan := Update(c.chan.(mask := Mask(true, true, c.chan.mask.write))))
  }

  function ConnectDestroyed(c: Conn): Conn {
    var d := if c.st == Connected then c.(st := Disconnected, chan := DisableAll(c.chan)) else c;
    d.(chan := Remove(d.chan), destroyed := true)
  }

  // ---------------------------------------------------------------- runs

  datatype Event =
    | Establish
    | Poll                             // epoll_wait returns; the channel is active only if registered
    | EndDispatch                      // pending functors run from here to the next poll
    | Sending(data: string, w: Written)
    | Shutting
    | Writable(ns: seq<nat>)           // handleWrite
    | Closing                          // handleClose, for whatever reason
    | ServerGone                       // the server queues connectDestroyed itself
    | Destroy                          // a queued connectDestroyed runs

  predicate Enabled(c: Conn, e: Event) {
    match e
    case Establish => c.st == Connecting
    case Poll => true
    case EndDispatch => true
    case Sending(data, w) => w.Wrote? ==> w.n <= |data|
    case Shutting => true
    case Writable(ns) => c.active && Drains(|c.out|, ns)
    case Closing => c.active
    case ServerGone => c.st != Connecting
    case Destroy => c.destroys > 0 && !c.active
  }

  function Apply(c: Conn, e: Event): Conn
    requires Enabled(c, e)
  {
    match e
    case Establish => ConnectEstablished(c)
    case Poll => c.(active := c.chan.kernel.Some?)
    case EndDispatch => c.(active := false)
    case Sending(data, w) => Send(c, data, w)
    case Shutting => Shutdown(c)
    case Writable(ns) => HandleWrite(c, ns)
    case Closing => HandleClose(c)
    case ServerGone => c.(destroys := c.destroys + 1)
    case Destroy => ConnectDestroyed(c.(destroys := c.destroys - 1))
  }

  ghost predicate StepAt(ss: seq<Conn>, es: seq<Event>, i: nat)
    requires i < |es| < |ss|
  {
    Enabled(ss[i], es[i]) && ss[i + 1] == Apply(ss[i], es[i])
  }

  ghost predicate IsRun(ss: seq<Conn>, es: seq<Event>) {
    |ss| == |es| + 1 && ss[0] == Created() && forall i | 0 <= i < |es| :: StepAt(ss, es, i)
  }

  // ---------------------------------------------------------------- the invariant

  ghost predicate Inv(c: Conn) {
    && Registered(c.chan)
    && |c.asked| == |c.taken| + |c.out| + c.lost && (c.lost == 0 ==> c.taken + c.out == c.asked)
    && (c.st == Connecting ==> c.chan == FRESH && c.out == "" && c.destroys == 0 && !c.destroyed)
    && (c.st == Disconnected ==> c.chan.mask == NONE)
    && (c.st in {Connected, Disconnecting} ==> (c.chan.mask.write <==> c.out != "") && c.chan.mask.read && c.chan.mask.et)
    && (c.st in {Connected, Disconnecting} && !c.destroyed ==> c.chan.index == Added)
    && c.shut <= 1 && (c.shut == 1 ==> c.out == "" && c.st in {Disconnecting, Disconnected})
    && (c.st == Disconnecting && c.out == "" ==> c.shut == 1)
    && (c.destroyed ==> c.chan.kernel.None? && !c.chan.mapped && !c.active && c.st in {Disconnecting, Disconnected})
    && (c.active ==> c.st != Connecting)
  }

  /** The direct write never overtakes bytes that wait: while some do, the kernel gets nothing new;
      and whatever the write returns, the bytes go behind all earlier ones, unless they are dropped
      because the direct write found the connection broken. */
  lemma SendOrder(c: Conn, data: string, w: Written)
    requires w.Wrote? ==> w.n <= |data|
    ensures c.out != "" ==> SendInLoop(c, data, w).taken == c.taken
    ensures
      var d := SendInLoop(c, data, w);
      if w.Broken? && !c.chan.mask.write && c.out == "" then d.taken == c.taken && d.out == c.out
      else d.taken + d.out == c.taken + c.out + data
  {
    if !(w.Broken? && !c.chan.mask.write && c.out == "") {
      var n := SendParts(c, data, w);
      Joined(c.taken, c.out, data, n);
    }
  }

  /** A send hands `n` bytes to the kernel and keeps the rest; none if bytes already wait. */
  lemma SendParts(c: Conn, data: string, w: Written) returns (n: nat)
    requires (w.Wrote? ==> w.n <= |data|) && !(w.Broken? && !c.chan.mask.write && c.out == "")
    ensures n <= |data| && (c.out == "" || n == 0)
    ensures var d := SendInLoop(c, data, w); d.taken == c.taken + data[..n] && d.out == c.out + data[n..]
  {
    n := if !c.chan.mask.write && c.out == "" && w.Wrote? then w.n else 0;
  }

  lemma Joined(taken: string, out: string, data: string, n: nat)
    requires n <= |data| && (out == "" || n == 0)
    ensures (taken + data[..n]) + (out + data[n..]) == taken + out + data
  {
  }

  /** What a send does to the channel and to the length of the buffer. */
  lemma SendSizes(c: Conn, data: string, w: Written)
    requires w.Wrote? ==> w.n <= |data|
    ensures
      var d := SendInLoop(c, data, w);
      && |d.taken| + |d.out| + d.lost == |c.taken| + |c.out| + c.lost + |data|
      && d == c.(taken := d.taken, out := d.out, lost := d.lost, chan := d.chan)
      && (d.chan == c.chan || (d.chan == EnableWriting(c.chan) && d.out != "" && d.lost == c.lost))
      && (d.chan == c.chan && d.out != "" && c.out == "" ==> c.chan.mask.write)
      && (c.out != "" ==> d.out != "")
  {
  }

  lemma SendKeeps(c: Conn, data: string, w: Written)
    requires Inv(c) && (w.Wrote? ==> w.n <= |data|)
    ensures Inv(Send(c, data, w))
  {
    if c.st == Connected {
      SendOrder(c, data, w);
      SendSizes(c, data, w);
      UpdateKeeps(c.chan, c.chan.mask.(write := true));
      assert SendInLoop(c, data, w).lost >= c.lost;
    }
  }

  lemma WriteOnceKeeps(c: Conn, n: nat)
    requires Inv(c) && c.chan.mask.write && 0 < n <= |c.out| && c.active
    ensures Inv(WriteOnce(c, n)) && WriteOnce(c, n).active
    ensures WriteOnce(c, n).chan.mask.write <==> WriteOnce(c, n).out != ""
    ensures |WriteOnce(c, n).out| == |c.out| - n
  {
    UpdateKeeps(c.chan, c.chan.mask.(write := false));
    assert c.out == c.out[..n] + c.out[n..];
    assert c.taken + c.out[..n] + c.out[n..] == c.taken + c.out;
  }

  lemma {:induction false} WriteLoopKeeps(c: Conn, ns: seq<nat>)
    requires Inv(c) && (c.chan.mask.write <==> c.out != "") && c.active && Drains(|c.out|, ns)
    ensures Inv(WriteLoop(c, ns)) && WriteLoop(c, ns).active
    decreases ns
  {
    if ns != [] {
      WriteOnceKeeps(c, ns[0]);
      WriteLoopKeeps(WriteOnce(c, ns[0]), ns[1..]);
    }
  }

  lemma InvStep(c: Conn, e: Event)
    requires Inv(c) && Enabled(c, e)
    ensures Inv(Apply(c, e))
  {
    match e
    case Establish => UpdateKeeps(c.chan, Mask(true, true, false));
    case Sending(data, w) => SendKeeps(c, data, w);
    case Writable(ns) =>
      if c.chan.mask.write {
        WriteLoopKeeps(c, ns);
      }
    case Closing => UpdateKeeps(c.chan, NONE);
    case Destroy =>
      UpdateKeeps(c.chan, NONE);
      RemoveKeeps(DisableAll(c.chan));
      RemoveKeeps(c.chan);
    case _ =>
  }

  lemma {:induction false} InvInRun(ss: seq<Conn>, es: seq<Event>, i: nat)
    requires IsRun(ss, es) && i < |ss|
    ensures Inv(ss[i])
  {
    if i > 0 {
      InvInRun(ss, es, i - 1);
      assert StepAt(ss, es, i - 1);
      InvStep(ss[i - 1], es[i - 1]);
    }
  }

  // ---------------------------------------------------------------- what it promises

  /** A send whose bytes are dropped: nothing waits in front of them, and the direct write finds
      the connection broken. */
  predicate Drops(c: Conn, e: Event) {
    e.Sending? && e.w.Broken? && e.data != "" && c.st == Connected && !c.chan.mask.write && c.out == ""
  }

  lemma {:induction false} LostIsDropped(ss: seq<Conn>, es: seq<Event>, i: nat)
    requires IsRun(ss, es) && i < |ss|
    ensures ss[i].lost == 0 <==> forall k | 0 <= k < i :: !Drops(ss[k], es[k])
  {
    if i > 0 {
      LostIsDropped(ss, es, i - 1);
      assert StepAt(ss, es, i - 1);
      LostStep(ss[i - 1], es[i - 1]);
    }
  }

  lemma LostStep(c: Conn, e: Event)
    requires Enabled(c, e)
    ensures Apply(c, e).lost >= c.lost && (Apply(c, e).lost > c.lost <==> Drops(c, e))
  {
    if e.Writable? && c.chan.mask.write {
      WriteLoopLost(c, e.ns);
    }
  }

  lemma {:induction false} WriteLoopLost(c: Conn, ns: seq<nat>)
    requires Drains(|c.out|, ns)
    ensures WriteLoop(c, ns).lost == c.lost
    decreases ns
  {
    if ns != [] {
      WriteLoopLost(WriteOnce(c, ns[0]), ns[1..]);
    }
  }

  /** The stream: what the kernel took, followed by what waits in the buffer, is what was sent,
      if and only if no direct write of a send found the connection broken. */
  lemma StreamKept(ss: seq<Conn>, es: seq<Event>, i: nat)
    requires IsRun(ss, es) && i < |ss|
    ensures ss[i].taken + ss[i].out == ss[i].asked <==> forall k | 0 <= k < i :: !Drops(ss[k], es[k])
  {
    InvInRun(ss, es, i);
    LostIsDropped(ss, es, i);
  }

  /** While the connection is open the kernel is asked for writability exactly when bytes wait,
      always for input, edge-triggered, and the kernel's mask is the channel's mask. */
  lemma InterestExact(ss: seq<Conn>, es: seq<Event>, i: nat)
    requires IsRun(ss, es) && i < |ss| && !ss[i].destroyed
    requires ss[i].st == Connected || ss[i].st == Disconnecting
    ensures ss[i].chan.kernel == Some(ss[i].chan.mask)
    ensures ss[i].chan.mask.write <==> ss[i].out != ""
    ensures ss[i].chan.mask.read && ss[i].chan.mask.et
  {
    InvInRun(ss, es, i);
  }

  /** The write side is closed at most once, never with bytes still waiting, and in a half-closed
      connection it is closed as soon as none wait. */
  lemma ShutdownAfterLastByte(ss: seq<Conn>, es: seq<Event>, i: nat)
    requires IsRun(ss, es) && i < |ss|
    ensures ss[i].shut <= 1
    ensures ss[i].shut == 1 ==> ss[i].out == "" && (ss[i].lost == 0 ==> ss[i].taken == ss[i].asked)
    ensures ss[i].st == Disconnecting ==> (ss[i].shut == 1 <==> ss[i].out == "")
  {
    InvInRun(ss, es, i);
    assert ss[i].taken + "" == ss[i].taken;
  }

  /** Every epoll_ctl ever issued was legal, even when handleClose runs several times. */
  lemma EpollNeverFails(ss: seq<Conn>, es: seq<Event>, i: nat)
    requires IsRun(ss, es) && i < |ss|
    ensures ss[i].chan.faults == 0
    ensures ss[i].chan.kernel.Some? ==> ss[i].chan.kernel.value == ss[i].chan.mask
  {
    InvInRun(ss, es, i);
  }

  /** Once connectDestroyed has run, no later step brings the channel back. */
  lemma {:induction false} DestroyedForGood(ss: seq<Conn>, es: seq<Event>, i: nat, j: nat)
    requires IsRun(ss, es) && i <= j < |ss| && ss[i].destroyed
    ensures ss[j].destroyed && ss[j].chan.kernel.None? && !ss[j].chan.mapped
  {
    InvInRun(ss, es, j);
    if i < j {
      DestroyedForGood(ss, es, i, j - 1);
      InvInRun(ss, es, j - 1);
      assert StepAt(ss, es, j - 1);
    }
  }

  /** That holds because send checks the state on the loop thread. A sendInLoop that was queued
      before and runs after the end registers the channel again exactly when it leaves bytes in
      the buffer and write interest was off. */
  lemma LateSendReregisters(c: Conn, data: string, w: Written)
    requires Inv(c) && c.destroyed && (w.Wrote? ==> w.n <= |data|)
    ensures SendInLoop(c, data, w).chan.kernel.Some? <==>
      data != "" && !c.chan.mask.write && (c.out != "" || w.Refused? || (w.Wrote? && w.n < |data|))
  {
  }

  /** Any run can be extended by an enabled step. */
  lemma ExtendRun(ss: seq<Conn>, es: seq<Event>, e: Event) returns (ss': seq<Conn>, es': seq<Event>)
    requires IsRun(ss, es) && Enabled(ss[|es|], e)
    ensures IsRun(ss', es') && ss'[|es'|] == Apply(ss[|es|], e)
  {
    ss', es' := ss + [Apply(ss[|es|], e)], es + [e];
    forall i | 0 <= i < |es'| ensures StepAt(ss', es', i) {
      if i < |es| {
        assert StepAt(ss, es, i);
      }
    }
  }

  lemma EstablishedRun() returns (ss: seq<Conn>, es: seq<Event>)
    ensures IsRun(ss, es)
    ensures var c := ss[|es|]; c.st == Connected && !c.chan.mask.write && c.out == "" && !c.active
  {
    ss, es := ExtendRun([Created()], [], Establish);
  }

  /** An open connection that is shut down and then dropped by the server. */
  lemma DestroyedRun(ss: seq<Conn>, es: seq<Event>) returns (ss': seq<Conn>, es': seq<Event>)
    requires IsRun(ss, es) && ss[|es|].st == Connected && !ss[|es|].active
    ensures IsRun(ss', es')
    ensures
      var c, d := ss[|es|], ss'[|es'|];
      && d.destroyed && d.st == Disconnecting && d.out == c.out && d.chan.mask == c.chan.mask
      && d.chan.kernel.None? && !d.chan.mapped
  {
    InvInRun(ss, es, |es|);
    ss', es' := ExtendRun(ss, es, Shutting);
    ss', es' := ExtendRun(ss', es', ServerGone);
    RemoveKeeps(ss'[|es'|].chan);
    ss', es' := ExtendRun(ss', es', Destroy);
  }

  /** A half-closed connection is destroyed with nothing waiting; a send that is still queued finds
      the kernel's buffer full and brings the channel back into epoll. */
  lemma LateSendComesBack() returns (ss: seq<Conn>, es: seq<Event>)
    ensures IsRun(ss, es) && ss[|es|].destroyed && ss[|es|].chan.kernel.None? && !ss[|es|].chan.mapped
    ensures SendInLoop(ss[|es|], "b", Refused).chan.kernel.Some?
  {
    ss, es := EstablishedRun();
    ss, es := DestroyedRun(ss, es);
    InvInRun(ss, es, |es|);
    LateSendReregisters(ss[|es|], "b", Refused);
  }

  /** With bytes already waiting the same send leaves the channel out, and its bytes behind. */
  lemma LateSendStaysOut() returns (ss: seq<Conn>, es: seq<Event>)
    ensures IsRun(ss, es) && ss[|es|].destroyed
    ensures var d := SendInLoop(ss[|es|], "b", Refused); d.chan.kernel.None? && d.out == "ab"
  {
    ss, es := EstablishedRun();
    ss, es := ExtendRun(ss, es, Sending("a", Refused));
    assert ss[|es|].out == "a";
    InvInRun(ss, es, |es|);
    ss, es := DestroyedRun(ss, es);
    InvInRun(ss, es, |es|);
    LateSendReregisters(ss[|es|], "b", Refused);
  }
}
