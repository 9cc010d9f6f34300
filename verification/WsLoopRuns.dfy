/** What holds in every reachable state of the event loop. */
module WsLoopRuns {
  import opened Wrappers
  import opened WsLoopSpec

  // ---------- the invariant ----------

  /** A message event belongs to a connection waiting for the application; an end event to
      a closed one whose descriptor nobody else has. */
  ghost predicate EventFits(e: Event, slots: seq<Slot>) {
    && e.owner < |slots|
    && (e.kind == WS_EV_MSG || e.kind == WS_EV_END)
    && (e.kind == WS_EV_MSG ==>
          slots[e.owner].inUse && slots[e.owner].phase == WS_DISPATCH && slots[e.owner].fd == e.fd)
    && (e.kind == WS_EV_END ==> !slots[e.owner].inUse && Unused(slots, e.fd))
  }

  ghost predicate Unused(slots: seq<Slot>, fd: int) {
    forall j :: 0 <= j < |slots| && slots[j].inUse ==> slots[j].fd != fd
  }

  /** Open connections have different descriptors. */
  ghost predicate Distinct(slots: seq<Slot>) {
    forall i, j :: 0 <= i < j < |slots| && slots[i].inUse && slots[j].inUse ==> slots[i].fd != slots[j].fd
  }

  ghost predicate OneEach(queue: seq<Event>) {
    forall k, m :: 0 <= k < m < |queue| ==> queue[k].owner != queue[m].owner
  }

  ghost predicate Inv(w: World) {
    && |w.slots| <= MAX_CONNS && Distinct(w.slots) && OneEach(w.queue)
    && (forall k :: 0 <= k < |w.queue| ==> EventFits(w.queue[k], w.slots))
    && w.dropped == 0 && w.pushed == w.popped + w.queue
  }

  /** No pending event belongs to the slot. */
  ghost predicate Idle(w: World, i: nat) {
    forall k :: 0 <= k < |w.queue| ==> w.queue[k].owner != i
  }

  function Owners(queue: seq<Event>): set<nat> {
    set k | 0 <= k < |queue| :: queue[k].owner
  }

  lemma {:induction false} OwnersCount(queue: seq<Event>)
    requires OneEach(queue)
    ensures |Owners(queue)| == |queue|
    decreases |queue|
  {
    if queue == [] {
      assert Owners(queue) == {};
    } else {
      var front, last := queue[..|queue| - 1], queue[|queue| - 1];
      OwnersCount(front);
      assert Owners(queue) == Owners(front) + {last.owner} by {
        assert forall k :: 0 <= k < |front| ==> front[k] == queue[k];
        assert queue[|queue| - 1].owner in Owners(queue);
        forall o | o in Owners(front) ensures o in Owners(queue) {
          var k :| 0 <= k < |front| && front[k].owner == o;
          assert queue[k].owner == o;
        }
      }
      assert last.owner !in Owners(front);
    }
  }

  lemma {:induction false} SmallSet(s: set<nat>, n: nat)
    requires forall x :: x in s ==> x < n
    ensures |s| <= n
    decreases n
  {
    if n == 0 {
      assert s == {};
    } else {
      SmallSet(s - {n - 1}, n - 1);
      assert |s| <= |s - {n - 1}| + 1;
    }
  }

  /** At most one pending event per slot, so the queue never comes near its capacity. */
  lemma QueueIsSmall(w: World)
    requires Inv(w)
    ensures |w.queue| <= |w.slots| && |w.queue| < 2112
  {
    OwnersCount(w.queue);
    forall o | o in Owners(w.queue) ensures o < |w.slots| {
      var k :| 0 <= k < |w.queue| && w.queue[k].owner == o;
      assert EventFits(w.queue[k], w.slots);
    }
    SmallSet(Owners(w.queue), |w.slots|);
  }

  lemma OpenIsIdle(w: World, i: nat)
    requires Inv(w) && i < |w.slots| && w.slots[i].inUse && w.slots[i].phase != WS_DISPATCH
    ensures Idle(w, i)
  {
  }

  // ---------- elementary changes ----------

  /** An idle open connection may change its phase. */
  lemma PhaseKeeps(w: World, i: nat, slot: Slot)
    requires Inv(w) && i < |w.slots| && w.slots[i].inUse && Idle(w, i)
    requires slot.inUse && slot.fd == w.slots[i].fd
    ensures Inv(w.(slots := w.slots[i := slot]))
  {
  }

  /** An idle connection may be closed. */
  lemma CloseKeeps(w: World, i: nat)
    requires Inv(w) && i < |w.slots| && Idle(w, i)
    ensures Inv(Close(w, i))
  {
  }

  lemma TellKeeps(w: World, notice: Notice)
    ensures Inv(w) <==> Inv(Tell(w, notice))
    ensures forall i :: Idle(w, i) <==> Idle(Tell(w, notice), i)
  {
  }

  lemma EndWithKeeps(w: World, i: nat, code: nat)
    requires Inv(w) && i < |w.slots| && w.slots[i].inUse && Idle(w, i)
    ensures Inv(EndWith(w, i, code)) && Touches(w, EndWith(w, i, code), i)
  {
    hide Inv, Idle;
    TellKeeps(w, CloseSent(w.slots[i].fd, code));
    EndKeeps(Tell(w, CloseSent(w.slots[i].fd, code)), i);
  }

  lemma TimersKeep(w: World, i: nat, timers: Timers)
    requires Inv(w) && i < |w.slots| && w.slots[i].inUse
    ensures Inv(SetTimers(w, i, timers)) && (Idle(w, i) ==> Idle(SetTimers(w, i, timers), i))
    ensures Touches(w, SetTimers(w, i, timers), i)
  {
  }

  lemma EndKeeps(w: World, i: nat)
    requires Inv(w) && i < |w.slots| && w.slots[i].inUse && Idle(w, i)
    ensures Inv(EndSession(w, i))
  {
    QueueIsSmall(w);
    CloseKeeps(w, i);
    var w' := EndSession(w, i);
    var e := Event(w.slots[i].fd, WS_EV_END, i);
    assert w'.queue == w.queue + [e];
    assert EventFits(e, w'.slots);
    forall k | 0 <= k < |w'.queue| ensures EventFits(w'.queue[k], w'.slots) {
      if k < |w.queue| {
        assert EventFits(Close(w, i).queue[k], w'.slots);
      }
    }
    assert w.popped + w.queue + [e] == w.popped + (w.queue + [e]);
  }

  lemma MessageKeeps(w: World, i: nat)
    requires Inv(w) && i < |w.slots| && w.slots[i].inUse && Idle(w, i)
    ensures Inv(QueueMessage(w, i))
  {
    QueueIsSmall(w);
    PhaseKeeps(w, i, w.slots[i].(phase := WS_DISPATCH));
    var w' := QueueMessage(w, i);
    var e := Event(w.slots[i].fd, WS_EV_MSG, i);
    assert w'.queue == w.queue + [e];
    assert EventFits(e, w'.slots);
    forall k | 0 <= k < |w'.queue| ensures EventFits(w'.queue[k], w'.slots) {
      if k < |w.queue| {
        assert EventFits(w.queue[k], w.slots[i := w.slots[i].(phase := WS_DISPATCH)]);
      }
    }
    assert w.popped + w.queue + [e] == w.popped + (w.queue + [e]);
  }

  // ---------- pumping ----------

  /** Nothing but slot i was touched, and new events, if any, are its own. */
  ghost predicate Touches(w: World, w': World, i: nat) {
    && |w'.slots| == |w.slots| && w.queue <= w'.queue
    && (forall j :: 0 <= j < |w.slots| && j != i ==> w'.slots[j] == w.slots[j])
    && (forall k :: |w.queue| <= k < |w'.queue| ==> w'.queue[k].owner == i)
  }

  lemma {:induction false} SessionKeeps(w: World, i: nat, feeds: seq<Feed>)
    requires Inv(w) && i < |w.slots| && w.slots[i].inUse && Idle(w, i)
    ensures Inv(PumpSession(w, i, feeds)) && Touches(w, PumpSession(w, i, feeds), i)
    decreases |feeds|
  {
    hide Inv, Idle, EndWith;
    if feeds != [] {
      QueueIsSmall(w);
      MessageKeeps(w, i);
      TellKeeps(w, CloseReply(w.slots[i].fd));
      TellKeeps(w, Pong(w.slots[i].fd));
      match feeds[0]
      case Eof => EndWithKeeps(w, i, GOING_AWAY);
      case Again =>
      case Grow(ok) => if ok { SessionKeeps(w, i, feeds[1..]); } else { EndWithKeeps(w, i, TOO_BIG); }
      case Broken => EndWithKeeps(w, i, PROTOCOL_ERROR);
      case Control(opcode) =>
        if opcode == CLOSE_FRAME {
          EndKeeps(Tell(w, CloseReply(w.slots[i].fd)), i);
        } else {
          SessionKeeps(if opcode == PING_FRAME then Tell(w, Pong(w.slots[i].fd)) else w, i, feeds[1..]);
        }
      case Data(refusal) => if refusal.Some? { EndWithKeeps(w, i, refusal.value); }
      case Partial => SessionKeeps(w, i, feeds[1..]);
    }
  }

  lemma {:induction false} ClosingKeeps(w: World, i: nat, feeds: seq<Feed>)
    requires Inv(w) && i < |w.slots| && w.slots[i].inUse && Idle(w, i)
    ensures Inv(PumpClosing(w, i, feeds)) && Touches(w, PumpClosing(w, i, feeds), i)
    decreases |feeds|
  {
    hide Inv, Idle;
    if feeds != [] {
      EndKeeps(w, i);
      ClosingKeeps(w, i, feeds[1..]);
    }
  }

  lemma HttpKeeps(w: World, i: nat, http: Http, heard: bool, now: int)
    requires Inv(w) && i < |w.slots| && w.slots[i].inUse && Idle(w, i)
    ensures var w' := PumpHttp(w, i, http, heard, now);
            && Inv(w') && Touches(w, w', i) && w'.queue == w.queue && (w'.slots[i].inUse <==> !http.Closed?)
  {
    hide HttpTimers;
  }

  lemma ConnKeeps(w: World, i: nat, input: Input, now: int)
    requires Inv(w) && i < |w.slots| && w.slots[i].inUse && Idle(w, i)
    ensures Inv(PumpConn(w, i, input, now)) && Touches(w, PumpConn(w, i, input, now), i)
    ensures IsReady(w, i, input) ==> PumpConn(w, i, input, now).slots[i].inUse
  {
    hide Inv, Idle, PumpSession, PumpClosing, PumpHttp;
    var heard := HeardSession(w, i, now);
    TimersKeep(w, i, w.slots[i].timers.(lastData := now, strikes := 0));
    SessionKeeps(if input.heard then heard else w, i, input.feeds);
    ClosingKeeps(w, i, input.feeds);
    HttpKeeps(w, i, input.http, input.heard, now);
  }

  /** Pending events all come from slots before `from`. */
  ghost predicate OwnedBelow(w: World, from: nat) {
    forall k :: 0 <= k < |w.queue| ==> w.queue[k].owner < from
  }

  lemma {:induction false} SweepKeeps(w: World, polls: seq<Poll>, now: int, from: nat)
    requires Inv(w) && from <= |w.slots| && OwnedBelow(w, from)
    ensures Inv(Sweep(w, polls, now, from).world)
    decreases |w.slots| - from
  {
    hide Inv, PumpConn;
    if from < |w.slots| {
      if !w.slots[from].inUse || PollAt(polls, from).Quiet? {
        SweepKeeps(w, polls, now, from + 1);
      } else if PollAt(polls, from).HangUp? {
        CloseKeeps(w, from);
        SweepKeeps(Close(w, from), polls, now, from + 1);
      } else {
        var input := PollAt(polls, from).input;
        ConnKeeps(w, from, input, now);
        var w' := PumpConn(w, from, input, now);
        if IsReady(w, from, input) {
          TimersKeep(w', from, w'.slots[from].timers.(lastActive := now));
        } else {
          SweepKeeps(w', polls, now, from + 1);
        }
      }
    }
  }

  lemma {:induction false} ScanKeeps(w: World, inputs: seq<Input>, now: int, from: nat)
    requires Inv(w) && from <= |w.slots| && w.queue == []
    ensures Inv(ScanH2(w, inputs, now, from).world) && ScanH2(w, inputs, now, from).world.queue == []
    decreases |w.slots| - from
  {
    hide Inv, PumpHttp;
    if from < |w.slots| {
      if !(w.slots[from].inUse && w.slots[from].phase == HTTP2) {
        ScanKeeps(w, inputs, now, from + 1);
      } else {
        var input := InputAt(inputs, from);
        HttpKeeps(w, from, input.http, input.heard, now);
        var w' := PumpHttp(w, from, input.http, input.heard, now);
        if HasRequest(input.http) {
          TimersKeep(w', from, w'.slots[from].timers.(lastActive := now));
        } else {
          ScanKeeps(w', inputs, now, from + 1);
        }
      }
    }
  }

  // ---------- deadlines ----------

  /** An action that was decided for the slot as it still is. */
  ghost predicate Decided(slot: Slot, action: Action) {
    action != Nothing ==> slot.inUse && slot.phase != WS_DISPATCH && slot.phase != HTTP_DISPATCH
  }

  lemma DecisionsFit(slots: seq<Slot>, l: Limits)
    ensures forall i :: 0 <= i < |slots| ==> Decided(slots[i], DecideAll(slots, l)[i])
  {
  }

  lemma ActionKeeps(w: World, i: nat, action: Action)
    requires Inv(w) && i < |w.slots| && Decided(w.slots[i], action)
    ensures Inv(ApplyAction(w, i, action)) && Touches(w, ApplyAction(w, i, action), i)
  {
    hide Inv, Idle, EndWith, SetTimers;
    if action != Nothing {
      var t := w.slots[i].timers.(strikes := w.slots[i].timers.strikes + 1);
      OpenIsIdle(w, i);
      TimersKeep(w, i, t);
      TimersOnly(w, i, t);
      TellKeeps(SetTimers(w, i, t), Reminder(w.slots[i].fd));
      EndWithKeeps(SetTimers(w, i, t), i, NORMAL);
      EndKeeps(w, i);
      TellKeeps(w, TimedOut(w.slots[i].fd));
      CloseKeeps(Tell(w, TimedOut(w.slots[i].fd)), i);
      CloseKeeps(w, i);
    }
  }

  lemma TimersOnly(w: World, i: nat, timers: Timers)
    requires i < |w.slots|
    ensures var w' := SetTimers(w, i, timers);
            && |w'.slots| == |w.slots| && w'.slots[i].inUse == w.slots[i].inUse && w'.slots[i].fd == w.slots[i].fd
            && w'.queue == w.queue
  {
  }

  lemma {:induction false} DeadlinesKeep(w: World, actions: seq<Action>, from: nat)
    requires Inv(w) && from <= |actions| == |w.slots|
    requires forall i :: from <= i < |actions| ==> Decided(w.slots[i], actions[i])
    ensures Inv(ApplyAll(w, actions, from))
    decreases |actions| - from
  {
    hide Inv, Idle, ApplyAction;
    if from < |actions| {
      assert Decided(w.slots[from], actions[from]);
      ActionKeeps(w, from, actions[from]);
      DeadlinesKeep(ApplyAction(w, from, actions[from]), actions, from + 1);
    }
  }

  // ---------- rounds ----------

  /** With nothing pending a slot can be given to a new connection. */
  lemma AllocKeeps(w: World, fd: int, now: int)
    requires Inv(w) && w.queue == [] && Unused(w.slots, fd)
    ensures Alloc(w, fd, now).Some? ==>
              var w' := Alloc(w, fd, now).value;
              && Inv(w') && w'.queue == [] && FirstFree(w.slots) < |w'.slots| && w'.slots[FirstFree(w.slots)].inUse
  {
  }

  /** The operating system gives a new connection a descriptor that no open one has. */
  ghost predicate Possible(w: World, r: Round) {
    w.queue == [] && r.accepted.Some? ==>
      Unused(ScanH2(w, r.h2, r.limits.now, 0).world.slots, r.accepted.value.fd)
  }

  lemma RoundKeeps(w: World, r: Round)
    requires Inv(w) && Possible(w, r)
    ensures Inv(Iterate(w, r).world)
  {
    hide Inv, ScanH2, AfterPoll, Unused, Pop;
    if w.queue != [] {
      PopKeeps(w, r.limits.now);
    } else {
      ScanKeeps(w, r.h2, r.limits.now, 0);
      var s := ScanH2(w, r.h2, r.limits.now, 0);
      if s.ready.None? && !r.pollFailed {
        PollKeeps(s.world, r);
      }
    }
  }

  lemma PopKeeps(w: World, now: int)
    requires Inv(w) && w.queue != []
    ensures Inv(Pop(w, now))
  {
    var i := FindSlot(w.slots, w.queue[0].fd);
    if i < |w.slots| {
      TimersKeep(w, i, w.slots[i].timers.(lastActive := now));
      TakeKeeps(Activate(w, i, now));
    } else {
      TakeKeeps(w);
    }
  }

  lemma TakeKeeps(w: World)
    requires Inv(w) && w.queue != []
    ensures Inv(w.(queue := w.queue[1..], popped := w.popped + [w.queue[0]]))
  {
  }

  lemma PollKeeps(w: World, r: Round)
    requires Inv(w) && w.queue == [] && (r.accepted.Some? ==> Unused(w.slots, r.accepted.value.fd))
    ensures Inv(AfterPoll(w, r).world)
  {
    hide Inv, Alloc, PumpHttp, AfterAccept, Unused;
    var now := r.limits.now;
    if r.accepted.None? {
      AcceptKeeps(w, r);
    } else {
      var fd, input := r.accepted.value.fd, r.accepted.value.input;
      AllocKeeps(w, fd, now);
      if Alloc(w, fd, now).Some? {
        var w', i := Alloc(w, fd, now).value, FirstFree(w.slots);
        NewIsIdle(w', i);
        HttpKeeps(w', i, input.http, input.heard, now);
        var w'' := PumpHttp(w', i, input.http, input.heard, now);
        if HasRequest(input.http) {
          TimersKeep(w'', i, w''.slots[i].timers.(lastActive := now));
        } else {
          AcceptKeeps(w'', r);
        }
      }
    }
  }

  lemma NewIsIdle(w: World, i: nat)
    requires w.queue == []
    ensures Idle(w, i)
  {
  }

  lemma AcceptKeeps(w: World, r: Round)
    requires Inv(w) && w.queue == []
    ensures Inv(AfterAccept(w, r).world)
  {
    hide Inv, Sweep, DecideAll, ApplyAll;
    SweepKeeps(w, r.polls, r.limits.now, 0);
    var s := Sweep(w, r.polls, r.limits.now, 0);
    if s.ready.None? {
      DecisionsFit(s.world.slots, r.limits);
      DeadlinesKeep(s.world, DecideAll(s.world.slots, r.limits), 0);
    }
  }

  // ---------- the application ----------

  /** No message for this descriptor waits in the queue. */
  ghost predicate NoMessagePending(w: World, fd: int) {
    forall k :: 0 <= k < |w.queue| && w.queue[k].fd == fd ==> w.queue[k].kind != WS_EV_MSG
  }

  lemma QuietIsIdle(w: World, fd: int)
    requires Inv(w) && NoMessagePending(w, fd) && FindSlot(w.slots, fd) < |w.slots|
    ensures Idle(w, FindSlot(w.slots, fd))
  {
  }

  /** A call that completes nothing that is still pending. */
  predicate Harmless(op: Op) {
    op.PumpNow? || op.ConnDone?
  }

  lemma HandleKeeps(w: World, op: Op, fd: int, now: int)
    requires Inv(w) && NoMessagePending(w, fd)
    ensures Inv(Handle(w, op, fd, now))
  {
    hide Inv, Idle;
    var i := FindSlot(w.slots, fd);
    if i < |w.slots| {
      QuietIsIdle(w, fd);
      var slot, t := w.slots[i], w.slots[i].timers;
      EndKeeps(w, i);
      CloseKeeps(w, i);
      match op
      case MessageDone => PhaseKeeps(w, i, slot.(phase := WS_SESSION));
      case PumpNow(feeds, heard) =>
        TimersKeep(w, i, t.(lastData := now, strikes := 0));
        TimersOnly(w, i, t.(lastData := now, strikes := 0));
        SessionKeeps(if heard then HeardSession(w, i, now) else w, i, feeds);
      case ConnClose =>
      case SetClosing(wait) => BothKeep(w, i, t.(closeAt := now), WS_CLOSE_WAIT);
      case Upgrade =>
        BothKeep(w, i, t.(firstData := 0, lastData := now, lastActive := now, strikes := 0), WS_SESSION);
      case ConnDone(keep) =>
        BothKeep(w, i, t.(firstData := 0, lastData := 0, lastActive := now), HTTP2);
        BothKeep(w, i, t.(firstData := 0, lastData := 0, lastActive := now), READ_HEADER);
    }
  }

  lemma BothKeep(w: World, i: nat, timers: Timers, phase: nat)
    requires Inv(w) && i < |w.slots| && w.slots[i].inUse && Idle(w, i)
    ensures Inv(SetPhase(SetTimers(w, i, timers), i, phase))
  {
    hide Inv, Idle;
    TimersKeep(w, i, timers);
    TimersOnly(w, i, timers);
    var w' := SetTimers(w, i, timers);
    PhaseKeeps(w', i, w'.slots[i].(phase := phase));
  }

  /** The slot of a pending message. */
  lemma PendingSlot(w: World, k: nat)
    requires Inv(w) && k < |w.queue| && w.queue[k].kind == WS_EV_MSG
    ensures var i := FindSlot(w.slots, w.queue[k].fd);
            i == w.queue[k].owner && i < |w.slots| && w.slots[i].phase == WS_DISPATCH
  {
  }

  /** Completing or ending a session whose message is still queued breaks the bookkeeping. */
  lemma EarlyCompletionBreaks(w: World, op: Op, fd: int, now: int)
    requires Inv(w) && !NoMessagePending(w, fd) && !Harmless(op)
    ensures !Inv(Handle(w, op, fd, now))
  {
    var k :| 0 <= k < |w.queue| && w.queue[k].fd == fd && w.queue[k].kind == WS_EV_MSG;
    PendingSlot(w, k);
    QueueIsSmall(w);
    var w' := Handle(w, op, fd, now);
    assert w'.queue[k] == w.queue[k];
    if op.ConnClose? || (op.SetClosing? && !op.wait) {
      assert w'.queue[|w.queue|].owner == w'.queue[k].owner;
    } else {
      assert !EventFits(w'.queue[k], w'.slots);
    }
  }

  lemma HarmlessKeeps(w: World, op: Op, fd: int, now: int)
    requires Inv(w) && !NoMessagePending(w, fd) && Harmless(op)
    ensures Inv(Handle(w, op, fd, now))
  {
  }

  /** Exactly when a call keeps the bookkeeping: unless it completes or ends a session whose
      message has not been handed over yet. */
  lemma HandleKeepsIff(w: World, op: Op, fd: int, now: int)
    requires Inv(w)
    ensures Inv(Handle(w, op, fd, now)) <==> Harmless(op) || NoMessagePending(w, fd)
  {
    hide Inv, Handle;
    if NoMessagePending(w, fd) {
      HandleKeeps(w, op, fd, now);
    } else if Harmless(op) {
      HarmlessKeeps(w, op, fd, now);
    } else {
      EarlyCompletionBreaks(w, op, fd, now);
    }
  }

  // ---------- whole runs ----------

  /** A round of the loop, or a call of the application on a descriptor. */
  datatype Step = RoundStep(round: Round) | CallStep(op: Op, fd: int, now: int)

  function Next(w: World, s: Step): World {
    match s
    case RoundStep(r) => Iterate(w, r).world
    case CallStep(op, fd, now) => Handle(w, op, fd, now)
  }

  /** New descriptors are new, and the application completes only what it was given. */
  ghost predicate Allowed(w: World, s: Step) {
    match s
    case RoundStep(r) => Possible(w, r)
    case CallStep(op, fd, now) => Harmless(op) || NoMessagePending(w, fd)
  }

  function Run(w: World, steps: seq<Step>): World
    decreases |steps|
  {
    if steps == [] then w else Run(Next(w, steps[0]), steps[1..])
  }

  ghost predicate AllAllowed(w: World, steps: seq<Step>)
    decreases |steps|
  {
    steps == [] || (Allowed(w, steps[0]) && AllAllowed(Next(w, steps[0]), steps[1..]))
  }

  lemma {:induction false} RunKeeps(w: World, steps: seq<Step>)
    requires Inv(w) && AllAllowed(w, steps)
    ensures Inv(Run(w, steps))
    decreases |steps|
  {
    hide Inv, Handle, Iterate, Possible;
    if steps != [] {
      match steps[0] {
        case RoundStep(r) => RoundKeeps(w, r);
        case CallStep(op, fd, now) => HandleKeepsIff(w, op, fd, now);
      }
      RunKeeps(Next(w, steps[0]), steps[1..]);
    }
  }

  const START: World := World([], [], [], [], 0, [])

  /** In every run no push ever fails, the queue stays within the table size, every event
      queued is taken out once and in order or still waits, and each slot accounts for at
      most one waiting event: a message of a connection that waits for the application, or
      the end of a closed one. */
  lemma EveryRunIsOrderly(steps: seq<Step>)
    requires AllAllowed(START, steps)
    ensures var w := Run(START, steps);
            && w.dropped == 0 && |w.queue| <= |w.slots| <= 1024
            && w.pushed == w.popped + w.queue && OneEach(w.queue)
            && forall k :: 0 <= k < |w.queue| ==> EventFits(w.queue[k], w.slots)
  {
    hide AllAllowed, Run;
    RunKeeps(START, steps);
    QueueIsSmall(Run(START, steps));
  }

  /** The same connections in the same phases. */
  predicate SameButTimers(a: seq<Slot>, b: seq<Slot>) {
    |a| == |b| && forall i :: 0 <= i < |a| ==> a[i].(timers := b[i].timers) == b[i]
  }

  /** An event is handed over while it is still true: a message while its connection waits
      for the application under the same descriptor, an end once nobody has it. */
  lemma DeliveryIsTimely(w: World, r: Round)
    requires Inv(w) && w.queue != []
    ensures var t, i := Iterate(w, r), FindSlot(w.slots, w.queue[0].fd);
            && t.outcome == Delivered(w.queue[0].fd, w.queue[0].kind) && SameButTimers(t.world.slots, w.slots)
            && (w.queue[0].kind == WS_EV_MSG ==> i < |w.slots| && w.slots[i].phase == WS_DISPATCH && Idle(t.world, i))
            && (w.queue[0].kind == WS_EV_END ==> i == |w.slots|)
  {
  }
}
