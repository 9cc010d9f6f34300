/** The event queue as a ring buffer, and the event loop as the source runs it
    (src/fastapi_mojo_rs/src/bridge/conn.rs, io.rs and ws_session_ffi.rs). */
module WsLoop {
  import opened Wrappers
  import opened WsLoopSpec

  /** The array position of the k-th event from the front. */
  function Place(head: nat, k: nat): (at: nat)
    ensures at < WS_EV_MAX
  {
    (head + k) % WS_EV_MAX
  }

  /** A bounded first-in first-out queue in two fixed arrays. */
  class WsEventQueue {
    const fds: array<int>
    const types: array<nat>
    var head: nat
    var count: nat

    ghost predicate Valid()
      reads this
    {
      fds.Length == WS_EV_MAX && types.Length == WS_EV_MAX && head < WS_EV_MAX && count <= WS_EV_MAX
    }

    /** The waiting events, oldest first. */
    ghost function Contents(): (s: seq<(int, nat)>)
      requires Valid()
      reads this, fds, types
      ensures |s| == count
    {
      seq(count, k requires 0 <= k < count reads this, fds,
          types requires Valid() => (fds[Place(head, k)], types[Place(head, k)]))
    }

    constructor ()
      ensures Valid() && Contents() == [] && fresh(fds) && fresh(types)
    {
      fds := new int[WS_EV_MAX](i => 0);
      types := new nat[WS_EV_MAX](i => 0);
      head, count := 0, 0;
    }

    /** Appends an event, unless the queue is full. */
    method Push(fd: int, kind: nat) returns (ok: bool)
      requires Valid()
      modifies this`count, fds, types
      ensures Valid() && ok == (|old(Contents())| < 2112)
      ensures Contents() == if ok then old(Contents()) + [(fd, kind)] else old(Contents())
    {
      if count >= WS_EV_MAX {
        return false;
      }
      var tail := (head + count) % WS_EV_MAX;
      forall k | 0 <= k < count ensures Place(head, k) != tail {
        OtherPlace(head, k, count);
      }
      fds[tail] := fd;
      types[tail] := kind;
      count := count + 1;
      assert Contents()[..count - 1] == old(Contents());
      return true;
    }

    /** Takes the oldest event, if there is one. */
    method Pop() returns (e: Option<(int, nat)>)
      requires Valid()
      modifies this
      ensures Valid()
      ensures if old(Contents()) == [] then e == None && Contents() == []
              else e == Some(old(Contents())[0]) && Contents() == old(Contents())[1..]
    {
      hide Place;
      if count == 0 {
        return None;
      }
      var fd, kind := fds[head], types[head];
      ghost var before := Contents();
      FrontPlace(head);
      assert before[0] == (fd, kind);
      var next := (head + 1) % WS_EV_MAX;
      forall k: nat | k < count - 1 ensures Place(next, k) == Place(head, k + 1) {
        NextPlace(head, k);
      }
      head := next;
      count := count - 1;
      assert forall k :: 0 <= k < count ==> Contents()[k] == before[1..][k];
      return Some((fd, kind));
    }
  }

  lemma OtherPlace(head: nat, k: nat, count: nat)
    requires head < WS_EV_MAX && k < count < WS_EV_MAX
    ensures Place(head, k) != Place(head, count)
  {
  }

  lemma NextPlace(head: nat, k: nat)
    requires head < WS_EV_MAX && k < WS_EV_MAX
    ensures Place((head + 1) % WS_EV_MAX, k) == Place(head, k + 1)
  {
  }

  lemma FrontPlace(head: nat)
    requires head < WS_EV_MAX
    ensures Place(head, 0) == head
  {
  }

  /** The connection table and the event queue, changed in place. */
  class EventLoop {
    var slots: seq<Slot>
    const events: WsEventQueue
    /** The waiting events with their owners, and the counters of the specification. */
    ghost var queue: seq<Event>
    ghost var pushed: seq<Event>
    ghost var popped: seq<Event>
    ghost var dropped: nat
    /** Everything the loop sent by itself. */
    ghost var notices: seq<Notice>

    ghost function View(): World
      reads this
    {
      World(slots, queue, pushed, popped, dropped, notices)
    }

    ghost predicate Valid()
      reads this, events, events.fds, events.types
    {
      && events.Valid() && |events.Contents()| == |queue| <= WS_EV_MAX
      && forall k :: 0 <= k < |queue| ==> events.Contents()[k] == (queue[k].fd, queue[k].kind)
    }

    constructor ()
      ensures Valid() && View() == World([], [], [], [], 0, [])
      ensures fresh(events) && fresh(events.fds) && fresh(events.types)
    {
      slots, queue, pushed, popped, dropped, notices := [], [], [], [], 0, [];
      events := new WsEventQueue();
    }

    // ---------- the queue and the table ----------

    method PushEvent(fd: int, kind: nat, ghost owner: nat) returns (ok: bool)
      requires Valid()
      modifies this, events, events.fds, events.types
      ensures Valid() && View() == Push(old(View()), fd, kind, owner) && ok == (|old(queue)| < WS_EV_MAX)
      ensures slots == old(slots)
    {
      ok := events.Push(fd, kind);
      if ok {
        queue, pushed := queue + [Event(fd, kind, owner)], pushed + [Event(fd, kind, owner)];
      } else {
        dropped := dropped + 1;
      }
    }

    method CloseSlot(i: nat)
      requires Valid() && i < |slots|
      modifies this
      ensures Valid() && View() == Close(old(View()), i)
    {
      slots := slots[i := FREE];
    }

    method SetSlotPhase(i: nat, phase: nat)
      requires Valid() && i < |slots|
      modifies this
      ensures Valid() && View() == SetPhase(old(View()), i, phase)
    {
      slots := slots[i := slots[i].(phase := phase)];
    }

    method SetSlotTimers(i: nat, timers: Timers)
      requires Valid() && i < |slots|
      modifies this
      ensures Valid() && View() == SetTimers(old(View()), i, timers)
    {
      slots := slots[i := slots[i].(timers := timers)];
    }

    /** Sends something; whether it arrives does not matter to the loop. */
    method Send(notice: Notice)
      requires Valid()
      modifies this
      ensures Valid() && View() == Tell(old(View()), notice)
    {
      notices := notices + [notice];
    }

    method EndWithCode(i: nat, code: nat)
      requires Valid() && i < |slots|
      modifies this, events, events.fds, events.types
      ensures Valid() && View() == EndWith(old(View()), i, code)
    {
      Send(CloseSent(slots[i].fd, code));
      End(i);
    }

    /** Queues the end event, whether or not there is room, and closes the connection. */
    method End(i: nat)
      requires Valid() && i < |slots|
      modifies this, events, events.fds, events.types
      ensures Valid() && View() == EndSession(old(View()), i)
    {
      var _ := PushEvent(slots[i].fd, WS_EV_END, i);
      CloseSlot(i);
    }

    method Find(fd: int) returns (i: nat)
      ensures i == FindSlot(slots, fd)
    {
      i := 0;
      assert slots[0..] == slots;
      while i < |slots| && !(slots[i].inUse && slots[i].fd == fd)
        invariant i <= |slots| && FindSlot(slots, fd) == i + FindSlot(slots[i..], fd)
      {
        assert slots[i..][1..] == slots[i + 1..];
        i := i + 1;
      }
    }

    method AllocSlot(fd: int, now: int) returns (r: Option<nat>)
      requires Valid()
      modifies this
      ensures Valid()
      ensures if Alloc(old(View()), fd, now).None? then r == None && View() == old(View())
              else r == Some(FirstFree(old(slots))) && View() == Alloc(old(View()), fd, now).value && r.value < |slots|
    {
      var i := 0;
      assert slots[0..] == slots;
      while i < |slots| && slots[i].inUse
        invariant i <= |slots| && FirstFree(slots) == i + FirstFree(slots[i..])
      {
        assert slots[i..][1..] == slots[i + 1..];
        i := i + 1;
      }
      if i < |slots| {
        slots := slots[i := Slot(true, fd, READ_HEADER, false, Timers(0, 0, now, 0, 0))];
        return Some(i);
      }
      if |slots| < MAX_CONNS {
        slots := slots + [Slot(true, fd, READ_HEADER, false, Timers(0, 0, now, 0, 0))];
        return Some(i);
      }
      return None;
    }

    // ---------- pumping ----------

    method PumpSessionAt(i: nat, feeds: seq<Feed>)
      requires Valid() && i < |slots|
      modifies this, events, events.fds, events.types
      ensures Valid() && View() == PumpSession(old(View()), i, feeds)
    {
      hide EndSession, EndWith, QueueMessage;
      assert feeds[0..] == feeds;
      for n := 0 to |feeds|
        invariant Valid() && i < |slots|
        invariant PumpSession(old(View()), i, feeds) == PumpSession(View(), i, feeds[n..])
      {
        assert feeds[n..][1..] == feeds[n + 1..];
        match feeds[n]
        case Eof =>
          EndWithCode(i, GOING_AWAY);
          return;
        case Again => return;
        case Grow(ok) =>
          if !ok {
            EndWithCode(i, TOO_BIG);
            return;
          }
        case Broken =>
          EndWithCode(i, PROTOCOL_ERROR);
          return;
        case Control(opcode) =>
          if opcode == PING_FRAME {
            Send(Pong(slots[i].fd));
          } else if opcode == CLOSE_FRAME {
            Send(CloseReply(slots[i].fd));
            End(i);
            return;
          }
        case Data(refusal) =>
          if refusal.None? {
            Message(i);
          } else {
            EndWithCode(i, refusal.value);
          }
          return;
        case Partial =>
      }
    }

    method Message(i: nat)
      requires Valid() && i < |slots|
      modifies this, events, events.fds, events.types
      ensures Valid() && View() == QueueMessage(old(View()), i)
    {
      var ok := PushEvent(slots[i].fd, WS_EV_MSG, i);
      if !ok {
        EndWithCode(i, POLICY);
        return;
      }
      SetSlotPhase(i, WS_DISPATCH);
    }

    method PumpClosingAt(i: nat, feeds: seq<Feed>)
      requires Valid() && i < |slots|
      modifies this, events, events.fds, events.types
      ensures Valid() && View() == PumpClosing(old(View()), i, feeds)
    {
      hide EndSession;
      assert feeds[0..] == feeds;
      for n := 0 to |feeds|
        invariant Valid() && i < |slots|
        invariant PumpClosing(old(View()), i, feeds) == PumpClosing(View(), i, feeds[n..])
      {
        assert feeds[n..][1..] == feeds[n + 1..];
        match feeds[n]
        case Again => return;
        case Eof =>
          End(i);
          return;
        case Broken =>
          End(i);
          return;
        case Grow(ok) =>
          if !ok {
            End(i);
            return;
          }
        case Control(opcode) =>
          if opcode == CLOSE_FRAME {
            End(i);
            return;
          }
        case _ =>
      }
    }

    /** Reads an HTTP connection.  What the header and the body come to is an input. */
    method PumpHttpAt(i: nat, http: Http, heard: bool, now: int)
      requires Valid() && i < |slots|
      modifies this
      ensures Valid() && View() == PumpHttp(old(View()), i, http, heard, now)
    {
      SetSlotTimers(i, HttpTimers(slots[i].timers, slots[i].phase, http, heard, now));
      match http
      case Waiting =>
      case NeedsBody => SetSlotPhase(i, READ_BODY);
      case Switched(request) =>
        slots := slots[i := slots[i].(phase := HTTP2, h2 := true)];
        if request {
          SetSlotPhase(i, HTTP_DISPATCH);
        }
      case Ready => SetSlotPhase(i, HTTP_DISPATCH);
      case Closed => CloseSlot(i);
    }

    /** Data from the socket proves that the peer is alive. */
    method HearSession(i: nat, heard: bool, now: int)
      requires Valid() && i < |slots|
      modifies this
      ensures Valid() && View() == if heard then HeardSession(old(View()), i, now) else old(View())
    {
      if heard {
        SetSlotTimers(i, slots[i].timers.(lastData := now, strikes := 0));
      }
    }

    method Pump(i: nat, input: Input, now: int) returns (ready: bool)
      requires Valid() && i < |slots|
      modifies this, events, events.fds, events.types
      ensures Valid() && View() == PumpConn(old(View()), i, input, now) && ready == IsReady(old(View()), i, input)
    {
      var phase := slots[i].phase;
      ready := false;
      if phase == HTTP_DISPATCH || phase == WS_DISPATCH {
        return;
      }
      if phase == WS_SESSION {
        HearSession(i, input.heard, now);
        PumpSessionAt(i, input.feeds);
      } else if phase == WS_CLOSE_WAIT {
        PumpClosingAt(i, input.feeds);
      } else {
        PumpHttpAt(i, input.http, input.heard, now);
        ready := HasRequest(input.http);
      }
    }

    method Touch(i: nat, now: int)
      requires Valid() && i < |slots|
      modifies this
      ensures Valid() && View() == Activate(old(View()), i, now)
    {
      SetSlotTimers(i, slots[i].timers.(lastActive := now));
    }

    // ---------- one round ----------

    method SweepPolled(polls: seq<Poll>, now: int) returns (ready: Option<int>)
      requires Valid()
      modifies this, events, events.fds, events.types
      ensures Valid() && Scan(View(), ready) == Sweep(old(View()), polls, now, 0)
    {
      hide PumpConn, IsReady;
      ghost var before := View();
      var n := |slots|;
      for i := 0 to n
        invariant Valid() && |slots| == n
        invariant Sweep(before, polls, now, 0) == Sweep(View(), polls, now, i)
      {
        if !slots[i].inUse || PollAt(polls, i).Quiet? {
          continue;
        }
        if PollAt(polls, i).HangUp? {
          CloseSlot(i);
          continue;
        }
        var fd := slots[i].fd;
        PumpKeepsSize(View(), i, PollAt(polls, i).input, now);
        var isReady := Pump(i, PollAt(polls, i).input, now);
        if isReady {
          Touch(i, now);
          return Some(fd);
        }
      }
      return None;
    }

    method ScanBuffered(inputs: seq<Input>, now: int) returns (ready: Option<int>)
      requires Valid()
      modifies this
      ensures Valid() && Scan(View(), ready) == ScanH2(old(View()), inputs, now, 0)
    {
      hide PumpHttp;
      ghost var before := View();
      var n := |slots|;
      for i := 0 to n
        invariant Valid() && |slots| == n
        invariant ScanH2(before, inputs, now, 0) == ScanH2(View(), inputs, now, i)
      {
        if !(slots[i].inUse && slots[i].phase == HTTP2) {
          continue;
        }
        var fd, input := slots[i].fd, InputAt(inputs, i);
        HttpKeepsSize(View(), i, input, now);
        PumpHttpAt(i, input.http, input.heard, now);
        if HasRequest(input.http) {
          Touch(i, now);
          return Some(fd);
        }
      }
      return None;
    }

    /** Carries out one decision. */
    method Act(i: nat, action: Action)
      requires Valid() && i < |slots|
      modifies this, events, events.fds, events.types
      ensures Valid() && View() == ApplyAction(old(View()), i, action)
    {
      hide EndSession;
      var fd, t := slots[i].fd, slots[i].timers;
      if action.WsPing? || action.WsClose1000? {
        SetSlotTimers(i, t.(strikes := t.strikes + 1));
      }
      match action
      case Nothing =>
      case WsPing => Send(Reminder(fd));
      case WsClose1000 => EndWithCode(i, NORMAL);
      case WsCloseWaitTimeout => End(i);
      case Timeout408 =>
        Send(TimedOut(fd));
        CloseSlot(i);
      case CloseIdle => CloseSlot(i);
    }

    method CheckDeadlines(limits: Limits)
      requires Valid()
      modifies this, events, events.fds, events.types
      ensures Valid() && View() == WsLoopSpec.CheckDeadlines(old(View()), limits)
    {
      hide Decide, ApplyAction;
      var decisions: seq<Action> := [];
      for i := 0 to |slots|
        invariant decisions == DecideAll(slots, limits)[..i]
      {
        var action := if slots[i].inUse then Decide(slots[i].phase, slots[i].timers, limits) else Nothing;
        decisions := decisions + [action];
      }
      ghost var all := DecideAll(slots, limits);
      assert decisions == all;
      var n := |slots|;
      for i := 0 to n
        invariant Valid() && |slots| == n == |decisions|
        invariant ApplyAll(old(View()), all, 0) == ApplyAll(View(), all, i)
      {
        ActionKeepsSize(View(), i, decisions[i]);
        Act(i, decisions[i]);
      }
    }

    /** One round: an event if one waits, else what reading and the clock bring. */
    method RecvAndParse(r: Round) returns (outcome: Outcome)
      requires Valid()
      modifies this, events, events.fds, events.types
      ensures Valid() && Turn(View(), outcome) == Iterate(old(View()), r)
    {
      hide ScanH2, Sweep, Alloc, PumpHttp, ApplyAll, DecideAll;
      var now := r.limits.now;
      var event := events.Pop();
      if event.Some? {
        popped, queue := popped + [queue[0]], queue[1..];
        var i := Find(event.value.0);
        if i < |slots| {
          Touch(i, now);
        }
        return Delivered(event.value.0, event.value.1);
      }
      var buffered := ScanBuffered(r.h2, now);
      if buffered.Some? {
        return Dispatched(buffered.value);
      }
      if r.pollFailed {
        return NothingYet;
      }
      if r.accepted.Some? {
        var Accepted(fd, input) := r.accepted.value;
        var i := AllocSlot(fd, now);
        if i.None? {
          return Refused;
        }
        HttpKeepsSize(View(), i.value, input, now);
        PumpHttpAt(i.value, input.http, input.heard, now);
        if HasRequest(input.http) {
          Touch(i.value, now);
          return Dispatched(fd);
        }
      }
      var ready := SweepPolled(r.polls, now);
      if ready.Some? {
        return Dispatched(ready.value);
      }
      CheckDeadlines(r.limits);
      return NothingYet;
    }

    // ---------- what the application calls ----------

    /** Any of the calls, on the connection that has the descriptor. */
    method Call(op: Op, fd: int, now: int)
      requires Valid()
      modifies this, events, events.fds, events.types
      ensures Valid() && View() == Handle(old(View()), op, fd, now)
    {
      hide PumpSession, EndSession;
      var i := Find(fd);
      if i == |slots| {
        return;
      }
      var phase, t := slots[i].phase, slots[i].timers;
      match op
      case MessageDone =>
        if phase == WS_DISPATCH {
          SetSlotPhase(i, WS_SESSION);
        }
      case PumpNow(feeds, heard) =>
        if phase == WS_SESSION {
          HearSession(i, heard, now);
          PumpSessionAt(i, feeds);
        }
      case ConnClose => End(i);
      case SetClosing(wait) =>
        if wait {
          SetSlotTimers(i, t.(closeAt := now));
          SetSlotPhase(i, WS_CLOSE_WAIT);
        } else {
          End(i);
        }
      case Upgrade =>
        SetSlotTimers(i, t.(firstData := 0, lastData := now, lastActive := now, strikes := 0));
        SetSlotPhase(i, WS_SESSION);
      case ConnDone(keep) =>
        if phase in {WS_SESSION, WS_DISPATCH, WS_CLOSE_WAIT} {
          return;
        }
        SetSlotTimers(i, t.(firstData := 0, lastData := 0, lastActive := now));
        if slots[i].h2 && (phase == HTTP_DISPATCH || phase == HTTP2) {
          SetSlotPhase(i, HTTP2);
        } else if keep {
          SetSlotPhase(i, READ_HEADER);
        } else {
          CloseSlot(i);
        }
    }
  }

  lemma HttpKeepsSize(w: World, i: nat, input: Input, now: int)
    requires i < |w.slots|
    ensures |PumpHttp(w, i, input.http, input.heard, now).slots| == |w.slots|
  {
  }

  lemma ActionKeepsSize(w: World, i: nat, action: Action)
    requires i < |w.slots|
    ensures |ApplyAction(w, i, action).slots| == |w.slots|
  {
  }
}
