/** Channel, EPollPoller and TcpConnection with their fields. */
module Connections {
  import opened Options
  import opened ConnectionModel
  import opened ConnectionHistory
  import Buffers

  class Channel {
    const fd: int
    var events: Mask
    var index: Index

    constructor (fd: int)
      ensures this.fd == fd && events == NONE && index == New
    {
      this.fd, events, index := fd, NONE, New;
    }
  }

  class EPollPoller {
    var channels: map<int, Channel>
    ghost var epoll: map<int, Mask>   // the kernel's interest set
    ghost var failed: map<int, nat>   // failed epoll_ctl calls per descriptor

    constructor ()
      ensures channels == map[] && epoll == map[] && failed == map[]
    {
      channels, epoll, failed := map[], map[], map[];
    }

    ghost function View(ch: Channel): Chan
      reads this, ch
    {
      Chan(ch.events, ch.index, ch.fd in channels,
           if ch.fd in epoll then Some(epoll[ch.fd]) else None,
           if ch.fd in failed then failed[ch.fd] else 0)
    }

    /** Nothing is known or registered for any descriptor but `fd` that was not before. */
    twostate predicate OthersKept(fd: int)
      reads this
    {
      forall g | g != fd ::
        && (g in channels <==> g in old(channels)) && (g in channels ==> channels[g] == old(channels)[g])
        && (g in epoll <==> g in old(epoll)) && (g in epoll ==> epoll[g] == old(epoll)[g])
    }

    /** update: the system call. */
    ghost method EpollCtl(op: Ctl, ch: Channel)
      modifies this`epoll, this`failed
      ensures View(ch) == ConnectionModel.EpollCtl(old(View(ch)), op) && OthersKept(ch.fd)
    {
      if (op == Add) == (ch.fd in epoll) {
        failed := failed[ch.fd := if ch.fd in failed then failed[ch.fd] + 1 else 1];
      } else if op == Del {
        epoll := epoll - {ch.fd};
      } else {
        epoll := epoll[ch.fd := ch.events];
      }
    }

    method UpdateChannel(ch: Channel)
      modifies this, ch`index
      ensures View(ch) == Update(old(View(ch))) && OthersKept(ch.fd)
    {
      if ch.index == New || ch.index == Deleted {
        if ch.index == New {
          channels := channels[ch.fd := ch];
        }
        ch.index := Added;
        EpollCtl(Add, ch);
      } else if ch.events == NONE {
        EpollCtl(Del, ch);
        ch.index := Deleted;
      } else {
        EpollCtl(Mod, ch);
      }
    }

    method RemoveChannel(ch: Channel)
      modifies this, ch`index
      ensures View(ch) == Remove(old(View(ch))) && OthersKept(ch.fd)
    {
      channels := channels - {ch.fd};
      if ch.index == Added {
        EpollCtl(Del, ch);
      }
      ch.index := New;
    }
  }

  class TcpConnection {
    var state: St
    const channel: Channel
    const poller: EPollPoller
    const outputBuffer: Buffers.Buffer
    ghost var taken: string
    ghost var asked: string
    ghost var lost: nat
    ghost var shut: nat
    ghost var active: bool
    ghost var destroys: nat
    ghost var destroyed: bool

    ghost predicate Valid()
      reads this, outputBuffer
    {
      outputBuffer.Valid()
    }

    ghost function State(): Conn
      requires Valid()
      reads this, channel, poller, outputBuffer, outputBuffer.buffer
    {
      Conn(state, poller.View(channel), outputBuffer.Contents(), taken, asked, lost, shut, active, destroys, destroyed)
    }

    twostate predicate SameOrNewBuffer()
      reads outputBuffer
    {
      outputBuffer.buffer == old(outputBuffer.buffer) || fresh(outputBuffer.buffer)
    }

    constructor (poller: EPollPoller, fd: int)
      requires fd !in poller.channels && fd !in poller.epoll && fd !in poller.failed
      ensures Valid() && State() == Created() && this.poller == poller && channel.fd == fd
      ensures fresh(channel) && fresh(outputBuffer) && fresh(outputBuffer.buffer)
    {
      state, this.poller := Connecting, poller;
      channel := new Channel(fd);
      outputBuffer := new Buffers.Buffer(1024);
      taken, asked, lost, shut, active, destroys, destroyed := "", "", 0, 0, false, 0, false;
    }

    method ConnectEstablished()
      requires Valid()
      modifies this, channel, poller
      ensures Valid() && SameOrNewBuffer() && State() == ConnectionModel.ConnectEstablished(old(State()))
    {
      state := Connected;
      channel.events := channel.events.(et := true);
      channel.events := channel.events.(read := true);
      poller.UpdateChannel(channel);
    }

    method ConnectDestroyed()
      requires Valid()
      modifies this, channel, poller
      ensures Valid() && SameOrNewBuffer() && State() == ConnectionModel.ConnectDestroyed(old(State()))
    {
      if state == Connected {
        state := Disconnected;
        channel.events := NONE;
        poller.UpdateChannel(channel);
      }
      poller.RemoveChannel(channel);
      destroyed := true;
    }

    /** sendInLoop when the direct write, if it is tried, returns `w`. */
    method SendInLoop(data: string, w: Written)
      requires Valid() && (w.Wrote? ==> w.n <= |data|)
      modifies this, channel, poller, outputBuffer, outputBuffer.buffer
      ensures Valid() && SameOrNewBuffer() && State() == ConnectionModel.SendInLoop(old(State()), data, w)
    {
      var nwrote, remaining, faultError := 0, |data|, false;
      if !channel.events.write && outputBuffer.ReadableBytes() == 0 {
        match w
        case Wrote(n) =>
          nwrote, remaining := n, |data| - n;
          taken := taken + data[..n];
        case Refused =>
        case Broken =>
          faultError := true;
          lost := lost + |data|;
      }
      if !faultError && remaining > 0 {
        BufferRest(data[nwrote..]);
      }
    }

    /** Keep `rest` for later and ask to be told when the socket is writable. */
    method BufferRest(rest: string)
      requires Valid()
      modifies channel, poller, outputBuffer, outputBuffer.buffer
      ensures Valid() && SameOrNewBuffer()
      ensures
        var c := old(State());
        State() == c.(out := c.out + rest, chan := if c.chan.mask.write then c.chan else EnableWriting(c.chan))
    {
      outputBuffer.Append(rest);
      if !channel.events.write {
        channel.events := channel.events.(write := true);
        poller.UpdateChannel(channel);
      }
    }

    /** send from the loop's own thread. */
    method Send(data: string, w: Written)
      requires Valid() && (w.Wrote? ==> w.n <= |data|)
      modifies this, channel, poller, outputBuffer, outputBuffer.buffer
      ensures Valid() && SameOrNewBuffer() && State() == ConnectionModel.Send(old(State()), data, w)
    {
      if state == Connected {
        SendInLoop(data, w);
        asked := asked + data;
      }
    }

    method ShutdownInLoop()
      requires Valid()
      modifies this
      ensures Valid() && State() == ConnectionModel.ShutdownInLoop(old(State()))
    {
      if !channel.events.write {
        shut := shut + 1;
      }
    }

    method Shutdown()
      requires Valid()
      modifies this
      ensures Valid() && SameOrNewBuffer() && State() == ConnectionModel.Shutdown(old(State()))
    {
      if state == Connected {
        state := Disconnecting;
        ShutdownInLoop();
      }
    }

    /** One write of handleWrite that took `n` bytes. */
    method WriteOnce(n: nat)
      requires Valid() && 0 < n <= |outputBuffer.Contents()|
      modifies this, channel, poller, outputBuffer
      ensures Valid() && outputBuffer.buffer == old(outputBuffer.buffer)
      ensures State() == ConnectionModel.WriteOnce(old(State()), n)
    {
      taken := taken + outputBuffer.Contents()[..n];
      outputBuffer.Retrieve(n);
      if outputBuffer.ReadableBytes() == 0 {
        channel.events := channel.events.(write := false);
        poller.UpdateChannel(channel);
        if state == Disconnecting {
          ShutdownInLoop();
        }
      }
    }

    /** handleWrite when the writes return `ns` and then nothing more. */
    method HandleWrite(ns: seq<nat>)
      requires Valid() && Drains(|outputBuffer.Contents()|, ns)
      modifies this, channel, poller, outputBuffer
      ensures Valid() && SameOrNewBuffer() && State() == ConnectionModel.HandleWrite(old(State()), ns)
      ensures Total(ns) <= |old(outputBuffer.Contents())|
      ensures old(channel.events.write) ==>
        && taken == old(taken) + old(outputBuffer.Contents())[..Total(ns)]
        && outputBuffer.Contents() == old(outputBuffer.Contents())[Total(ns)..]
    {
      WritesOut(State(), ns);
      if channel.events.write {
        var i := 0;
        while true
          invariant i <= |ns| && Valid() && outputBuffer.buffer == old(outputBuffer.buffer)
          invariant Drains(|State().out|, ns[i..])
          invariant WriteLoop(State(), ns[i..]) == WriteLoop(old(State()), ns)
          decreases |ns| - i
        {
          var n := if i < |ns| then ns[i] else 0;
          if n <= 0 {
            break;
          }
          assert ns[i..][1..] == ns[i + 1..];
          WriteOnce(n);
          i := i + 1;
        }
      }
    }

    method HandleClose()
      requires Valid()
      modifies this, channel, poller
      ensures Valid() && SameOrNewBuffer() && State() == ConnectionModel.HandleClose(old(State()))
    {
      state := Disconnected;
      channel.events := NONE;
      poller.UpdateChannel(channel);
      destroys := destroys + 1;
    }

    /** Any enabled step. */
    method Perform(e: Event)
      requires Valid() && Enabled(State(), e)
      modifies this, channel, poller, outputBuffer, outputBuffer.buffer
      ensures Valid() && SameOrNewBuffer() && State() == Apply(old(State()), e)
    {
      match e
      case Establish => ConnectEstablished();
      case Poll => active := channel.fd in poller.epoll;
      case EndDispatch => active := false;
      case Sending(data, w) => Send(data, w);
      case Shutting => Shutdown();
      case Writable(ns) => HandleWrite(ns);
      case Closing => HandleClose();
      case ServerGone => destroys := destroys + 1;
      case Destroy =>
        destroys := destroys - 1;
        ConnectDestroyed();
    }
  }

  /** The implementation follows every run of the model; it returns what still waits to be sent. */
  method Drive(fd: int, schedule: seq<Event>, ghost ss: seq<Conn>) returns (waiting: string)
    requires IsRun(ss, schedule)
    ensures waiting == ss[|schedule|].out
  {
    var poller := new EPollPoller();
    var conn := new TcpConnection(poller, fd);
    for i := 0 to |schedule|
      invariant fresh(conn) && fresh(poller) && fresh(conn.channel) && conn.poller == poller
      invariant fresh(conn.outputBuffer) && fresh(conn.outputBuffer.buffer)
      invariant conn.Valid() && conn.State() == ss[i]
    {
      assert StepAt(ss, schedule, i);
      conn.Perform(schedule[i]);
    }
    waiting := conn.outputBuffer.RetrieveAsString(conn.outputBuffer.ReadableBytes());
  }
}
