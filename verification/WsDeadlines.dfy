/** What the deadlines do to connections, round after round
    (src/fastapi_mojo_rs/src/bridge/conn/deadlines.rs and io.rs). */
module WsDeadlines {
  import opened Wrappers
  import opened WsLoopSpec
  import opened WsLoopRuns

  // ---------- which deadline a connection has reached ----------

  /** An open session from which nothing came for as long as `recvTimeout`. */
  predicate Silent(s: Slot, l: Limits) {
    s.inUse && s.phase == 3 && s.timers.lastData != 0 && l.now - s.timers.lastData >= l.recvTimeout
  }

  predicate IsReminded(s: Slot, l: Limits) {
    Silent(s, l) && s.timers.strikes < l.pingMax
  }

  predicate IsGivenUp(s: Slot, l: Limits) {
    Silent(s, l) && s.timers.strikes >= l.pingMax
  }

  /** The peer did not answer the close frame in time. */
  predicate IsWaitedOut(s: Slot, l: Limits) {
    s.inUse && s.phase == 5 && s.timers.closeAt != 0 && 0 <= l.closeWait <= l.now - s.timers.closeAt
  }

  /** Neither dispatched nor a session. */
  predicate IsReading(s: Slot) {
    s.inUse && s.phase !in {2, 3, 4, 5}
  }

  /** A request has begun, and either nothing came for too long or it takes too long in all. */
  predicate IsOverdue(s: Slot, l: Limits) {
    && IsReading(s) && s.timers.firstData != 0
    && (l.now - s.timers.lastData >= l.recvTimeout || l.now - s.timers.firstData >= l.maxRequest)
  }

  /** No request has begun for too long. */
  predicate IsStale(s: Slot, l: Limits) {
    IsReading(s) && s.timers.firstData == 0 && l.now - s.timers.lastActive >= l.idleMax
  }

  /** The slot after the deadlines. */
  function Kept(s: Slot, l: Limits): Slot {
    if IsGivenUp(s, l) || IsWaitedOut(s, l) || IsOverdue(s, l) || IsStale(s, l) then FREE
    else if IsReminded(s, l) then s.(timers := s.timers.(strikes := s.timers.strikes + 1))
    else s
  }

  /** The events of sessions that end. */
  function EndEvents(slots: seq<Slot>, l: Limits, from: nat): seq<Event>
    requires from <= |slots|
    decreases |slots| - from
  {
    if from == |slots| then []
    else
      (if IsGivenUp(slots[from], l) || IsWaitedOut(slots[from], l) then [Event(slots[from].fd, 2, from)] else [])
      + EndEvents(slots, l, from + 1)
  }

  /** A reminder, a close frame with 1000 or a 408; a session in close-wait is ended, and a
      connection without a request closed, in silence. */
  function Said(s: Slot, l: Limits): seq<Notice> {
    if IsReminded(s, l) then [Reminder(s.fd)]
    else if IsGivenUp(s, l) then [CloseSent(s.fd, 1000)]
    else if IsOverdue(s, l) then [TimedOut(s.fd)]
    else []
  }

  function AllSaid(slots: seq<Slot>, l: Limits, from: nat): seq<Notice>
    requires from <= |slots|
    decreases |slots| - from
  {
    if from == |slots| then [] else Said(slots[from], l) + AllSaid(slots, l, from + 1)
  }

  lemma OneDecision(w: World, i: nat, l: Limits)
    requires i < |w.slots| && |w.queue| < WS_EV_MAX
    ensures var s := w.slots[i];
            var ends := if IsGivenUp(s, l) || IsWaitedOut(s, l) then [Event(s.fd, 2, i)] else [];
            ApplyAction(w, i, if s.inUse then Decide(s.phase, s.timers, l) else Nothing)
            == w.(slots := w.slots[i := Kept(s, l)], queue := w.queue + ends, pushed := w.pushed + ends,
                  notices := w.notices + Said(s, l))
  {
    var s := w.slots[i];
    assert w.slots[i := s] == w.slots;
    assert w.queue + [] == w.queue && w.pushed + [] == w.pushed && w.notices + [] == w.notices;
  }

  lemma {:induction false} DecisionsMean(w: World, slots: seq<Slot>, l: Limits, from: nat)
    requires Inv(w) && from <= |slots| == |w.slots| && slots[from..] == w.slots[from..]
    ensures var w' := ApplyAll(w, DecideAll(slots, l), from);
            && |w'.slots| == |slots|
            && (forall i :: 0 <= i < from ==> w'.slots[i] == w.slots[i])
            && (forall i :: from <= i < |slots| ==> w'.slots[i] == Kept(slots[i], l))
            && w'.queue == w.queue + EndEvents(slots, l, from) && w'.pushed == w.pushed + EndEvents(slots, l, from)
            && w'.popped == w.popped && w'.dropped == w.dropped
            && w'.notices == w.notices + AllSaid(slots, l, from)
    decreases |slots| - from
  {
    hide Inv, Kept, Said, Decide, ApplyAction, IsGivenUp, IsWaitedOut;
    if from < |slots| {
      assert w.slots[from] == w.slots[from..][0] == slots[from..][0] == slots[from];
      var s := slots[from];
      QueueIsSmall(w);
      OneDecision(w, from, l);
      var action := DecideAll(slots, l)[from];
      DecisionsFit(slots, l);
      ActionKeeps(w, from, action);
      var w1 := ApplyAction(w, from, action);
      assert slots[from + 1..] == w1.slots[from + 1..] by {
        forall i | from < i < |slots| ensures slots[i] == w1.slots[i] {
          assert slots[i] == slots[from..][i - from] == w.slots[from..][i - from] == w.slots[i];
        }
      }
      DecisionsMean(w1, slots, l, from + 1);
    }
  }

  /** What the world is after the deadlines, connection by connection: sessions are ended,
      requests and idle connections closed, and reminders sent exactly as their clocks say. */
  lemma DeadlinesMean(w: World, l: Limits)
    requires Inv(w)
    ensures var w' := CheckDeadlines(w, l);
            && |w'.slots| == |w.slots| && (forall i :: 0 <= i < |w.slots| ==> w'.slots[i] == Kept(w.slots[i], l))
            && w'.queue == w.queue + EndEvents(w.slots, l, 0) && w'.pushed == w.pushed + EndEvents(w.slots, l, 0)
            && w'.popped == w.popped && w'.dropped == w.dropped
            && w'.notices == w.notices + AllSaid(w.slots, l, 0)
  {
    hide Inv, Kept, Said, Decide, ApplyAction, IsGivenUp, IsWaitedOut;
    DecisionsMean(w, w.slots, l, 0);
  }

  // ---------- what is said on one connection ----------

  /** The notices on a descriptor. */
  function About(notices: seq<Notice>, fd: int): seq<Notice> {
    if notices == [] then []
    else
      var last := notices[|notices| - 1];
      About(notices[..|notices| - 1], fd) + if last.fd == fd then [last] else []
  }

  lemma {:induction false} AboutConcat(a: seq<Notice>, b: seq<Notice>, fd: int)
    ensures About(a + b, fd) == About(a, fd) + About(b, fd)
    decreases |b|
  {
    if b == [] {
      assert a + b == a;
    } else {
      var front, last := b[..|b| - 1], b[|b| - 1];
      assert (a + b)[..|a + b| - 1] == a + front;
      AboutConcat(a, front, fd);
    }
  }

  lemma AboutSnoc(notices: seq<Notice>, last: Notice, fd: int)
    ensures About(notices + [last], fd) == About(notices, fd) + if last.fd == fd then [last] else []
  {
    assert (notices + [last])[..|notices|] == notices;
  }

  /** The slot is as before, and nothing was said on its descriptor. */
  ghost predicate Leaves(w: World, w': World, i: nat)
    requires i < |w.slots|
  {
    && i < |w'.slots| && w'.slots[i] == w.slots[i]
    && About(w'.notices, w.slots[i].fd) == About(w.notices, w.slots[i].fd)
  }

  lemma LeavesTrans(a: World, b: World, c: World, i: nat)
    requires i < |a.slots| && Leaves(a, b, i) && Leaves(b, c, i)
    ensures Leaves(a, c, i)
  {
  }

  lemma TellLeaves(w: World, notice: Notice, i: nat)
    requires i < |w.slots| && notice.fd != w.slots[i].fd
    ensures Leaves(w, Tell(w, notice), i)
  {
    AboutSnoc(w.notices, notice, w.slots[i].fd);
  }

  lemma EndWithLeaves(w: World, j: nat, code: nat, i: nat)
    requires i < |w.slots| && j < |w.slots| && i != j && w.slots[j].fd != w.slots[i].fd
    ensures Leaves(w, EndWith(w, j, code), i)
  {
    TellLeaves(w, CloseSent(w.slots[j].fd, code), i);
  }

  lemma MessageLeaves(w: World, j: nat, i: nat)
    requires i < |w.slots| && j < |w.slots| && i != j && w.slots[j].fd != w.slots[i].fd
    ensures Leaves(w, QueueMessage(w, j), i)
  {
    EndWithLeaves(Push(w, w.slots[j].fd, WS_EV_MSG, j), j, POLICY, i);
  }

  lemma {:induction false} SessionLeaves(w: World, j: nat, feeds: seq<Feed>, i: nat)
    requires i < |w.slots| && j < |w.slots| && i != j && w.slots[j].fd != w.slots[i].fd
    ensures Leaves(w, PumpSession(w, j, feeds), i)
    decreases |feeds|
  {
    hide Leaves, EndWith, QueueMessage;
    Itself(w, i);
    if feeds != [] {
      var fd := w.slots[j].fd;
      match feeds[0]
      case Eof => EndWithLeaves(w, j, GOING_AWAY, i);
      case Again =>
      case Grow(ok) => if ok { SessionLeaves(w, j, feeds[1..], i); } else { EndWithLeaves(w, j, TOO_BIG, i); }
      case Broken => EndWithLeaves(w, j, PROTOCOL_ERROR, i);
      case Control(opcode) =>
        if opcode == CLOSE_FRAME {
          TellLeaves(w, CloseReply(fd), i);
          EndLeaves(Tell(w, CloseReply(fd)), j, i);
          LeavesTrans(w, Tell(w, CloseReply(fd)), PumpSession(w, j, feeds), i);
        } else if opcode == PING_FRAME {
          TellLeaves(w, Pong(fd), i);
          SessionLeaves(Tell(w, Pong(fd)), j, feeds[1..], i);
          LeavesTrans(w, Tell(w, Pong(fd)), PumpSession(w, j, feeds), i);
        } else {
          SessionLeaves(w, j, feeds[1..], i);
        }
      case Data(refusal) =>
        if refusal.Some? { EndWithLeaves(w, j, refusal.value, i); } else { MessageLeaves(w, j, i); }
      case Partial => SessionLeaves(w, j, feeds[1..], i);
    }
  }

  lemma Itself(w: World, i: nat)
    requires i < |w.slots|
    ensures Leaves(w, w, i)
  {
  }

  lemma EndLeaves(w: World, j: nat, i: nat)
    requires i < |w.slots| && j < |w.slots| && i != j
    ensures Leaves(w, EndSession(w, j), i)
  {
  }

  lemma {:induction false} ClosingLeaves(w: World, j: nat, feeds: seq<Feed>, i: nat)
    requires i < |w.slots| && j < |w.slots| && i != j
    ensures Leaves(w, PumpClosing(w, j, feeds), i)
    decreases |feeds|
  {
    hide Leaves;
    Itself(w, i);
    EndLeaves(w, j, i);
    if feeds != [] {
      ClosingLeaves(w, j, feeds[1..], i);
    }
  }

  lemma ConnLeaves(w: World, j: nat, input: Input, now: int, i: nat)
    requires i < |w.slots| && j < |w.slots| && i != j && w.slots[j].fd != w.slots[i].fd
    ensures Leaves(w, PumpConn(w, j, input, now), i)
  {
    hide PumpSession, PumpClosing, HttpTimers;
    if input.heard {
      var h := HeardSession(w, j, now);
      SessionLeaves(h, j, input.feeds, i);
    }
    SessionLeaves(w, j, input.feeds, i);
    ClosingLeaves(w, j, input.feeds, i);
  }

  lemma Others(w: World, i: nat, j: nat)
    requires Inv(w) && i < |w.slots| && j < |w.slots| && i != j && w.slots[i].inUse && w.slots[j].inUse
    ensures w.slots[i].fd != w.slots[j].fd
  {
  }

  /** The connection is a session, open or closing, about which poll says nothing. */
  predicate Resting(w: World, i: nat) {
    i < |w.slots| && w.slots[i].inUse && w.slots[i].phase in {WS_SESSION, WS_CLOSE_WAIT}
  }

  lemma {:induction false} SweepLeaves(w: World, polls: seq<Poll>, now: int, from: nat, i: nat)
    requires Inv(w) && from <= |w.slots| && OwnedBelow(w, from) && Resting(w, i) && PollAt(polls, i).Quiet?
    ensures Leaves(w, Sweep(w, polls, now, from).world, i)
    decreases |w.slots| - from
  {
    hide Inv, PumpConn, Leaves;
    Itself(w, i);
    if from < |w.slots| {
      if !w.slots[from].inUse || PollAt(polls, from).Quiet? {
        SweepLeaves(w, polls, now, from + 1, i);
      } else if PollAt(polls, from).HangUp? {
        CloseKeeps(w, from);
        CloseLeaves(w, from, i);
        SweepLeaves(Close(w, from), polls, now, from + 1, i);
        LeavesTrans(w, Close(w, from), Sweep(w, polls, now, from).world, i);
      } else {
        var input := PollAt(polls, from).input;
        Others(w, i, from);
        ConnKeeps(w, from, input, now);
        ConnLeaves(w, from, input, now, i);
        var w' := PumpConn(w, from, input, now);
        StillResting(w, w', i);
        if IsReady(w, from, input) {
          ActivateLeaves(w', from, now, i);
          LeavesTrans(w, w', Activate(w', from, now), i);
        } else {
          SweepLeaves(w', polls, now, from + 1, i);
          LeavesTrans(w, w', Sweep(w, polls, now, from).world, i);
        }
      }
    }
  }

  lemma StillResting(w: World, w': World, i: nat)
    requires Resting(w, i) && Leaves(w, w', i)
    ensures Resting(w', i)
  {
  }

  lemma CloseLeaves(w: World, j: nat, i: nat)
    requires Resting(w, i) && j < |w.slots| && i != j
    ensures Leaves(w, Close(w, j), i) && Resting(Close(w, j), i)
  {
  }

  lemma ActivateLeaves(w: World, j: nat, now: int, i: nat)
    requires i < |w.slots| && j < |w.slots| && i != j
    ensures Leaves(w, Activate(w, j, now), i)
  {
  }

  lemma HttpLeaves(w: World, j: nat, input: Input, now: int, i: nat)
    requires i < |w.slots| && j < |w.slots| && i != j
    ensures Leaves(w, PumpHttp(w, j, input.http, input.heard, now), i)
  {
    hide HttpTimers;
  }

  lemma {:induction false} ScanLeaves(w: World, inputs: seq<Input>, now: int, from: nat, i: nat)
    requires from <= |w.slots| && Resting(w, i)
    ensures Leaves(w, ScanH2(w, inputs, now, from).world, i)
    decreases |w.slots| - from
  {
    hide PumpHttp, Leaves;
    Itself(w, i);
    if from < |w.slots| {
      if !(w.slots[from].inUse && w.slots[from].phase == HTTP2) {
        ScanLeaves(w, inputs, now, from + 1, i);
      } else {
        var input := InputAt(inputs, from);
        HttpLeaves(w, from, input, now, i);
        var w' := PumpHttp(w, from, input.http, input.heard, now);
        StillResting(w, w', i);
        HttpSize(w, from, input, now);
        if HasRequest(input.http) {
          ActivateLeaves(w', from, now, i);
          LeavesTrans(w, w', Activate(w', from, now), i);
        } else {
          ScanLeaves(w', inputs, now, from + 1, i);
          LeavesTrans(w, w', ScanH2(w, inputs, now, from).world, i);
        }
      }
    }
  }

  lemma HttpSize(w: World, i: nat, input: Input, now: int)
    requires i < |w.slots|
    ensures |PumpHttp(w, i, input.http, input.heard, now).slots| == |w.slots|
  {
  }

  // ---------- rounds and calls that do not concern the connection ----------

  /** The round comes to its deadlines. */
  predicate Reaches(w: World, r: Round) {
    !r.pollFailed && Iterate(w, r).outcome.NothingYet?
  }

  lemma OtherEvent(w: World, i: nat)
    requires Inv(w) && w.queue != [] && Resting(w, i)
    ensures FindSlot(w.slots, w.queue[0].fd) != i
  {
    assert EventFits(w.queue[0], w.slots);
  }

  lemma PopLeaves(w: World, now: int, i: nat)
    requires Inv(w) && w.queue != [] && Resting(w, i)
    ensures Leaves(w, Pop(w, now), i)
  {
    OtherEvent(w, i);
  }

  lemma AllocLeaves(w: World, fd: int, now: int, i: nat)
    requires Resting(w, i)
    ensures FirstFree(w.slots) != i
    ensures Alloc(w, fd, now).Some? ==> Leaves(w, Alloc(w, fd, now).value, i)
  {
  }

  /** A round in which poll says nothing about the connection: it is left alone up to the
      deadlines, if the round comes to them. */
  lemma RoundLeaves(w: World, r: Round, i: nat) returns (v: World)
    requires Inv(w) && Possible(w, r) && Resting(w, i) && PollAt(r.polls, i).Quiet?
    ensures Leaves(w, v, i) && Resting(v, i)
    ensures Iterate(w, r).world == if Reaches(w, r) then CheckDeadlines(v, r.limits) else v
    ensures Reaches(w, r) ==> Inv(v)
  {
    hide Inv, ScanH2, AfterPoll, Unused, Pop, Leaves, CheckDeadlines;
    var now := r.limits.now;
    if w.queue != [] {
      PopLeaves(w, now, i);
      v := Pop(w, now);
    } else {
      var s := ScanH2(w, r.h2, now, 0);
      ScanLeaves(w, r.h2, now, 0, i);
      ScanKeeps(w, r.h2, now, 0);
      StillResting(w, s.world, i);
      if s.ready.Some? || r.pollFailed {
        v := s.world;
      } else {
        v := PollLeaves(s.world, r, i);
        LeavesTrans(w, s.world, v, i);
      }
    }
    StillResting(w, v, i);
  }

  lemma PollLeaves(w: World, r: Round, i: nat) returns (v: World)
    requires Inv(w) && w.queue == [] && (r.accepted.Some? ==> Unused(w.slots, r.accepted.value.fd))
    requires Resting(w, i) && PollAt(r.polls, i).Quiet?
    ensures Leaves(w, v, i)
    ensures var t := AfterPoll(w, r);
            && t.world == (if t.outcome.NothingYet? then CheckDeadlines(v, r.limits) else v)
            && (t.outcome.NothingYet? ==> Inv(v))
  {
    hide Inv, Alloc, PumpHttp, AfterAccept, Unused, Leaves, CheckDeadlines;
    var now := r.limits.now;
    Itself(w, i);
    if r.accepted.None? {
      v := AcceptLeaves(w, r, i);
    } else {
      var fd, input := r.accepted.value.fd, r.accepted.value.input;
      AllocKeeps(w, fd, now);
      AllocLeaves(w, fd, now, i);
      v := w;
      if Alloc(w, fd, now).Some? {
        var w', j := Alloc(w, fd, now).value, FirstFree(w.slots);
        StillResting(w, w', i);
        NewIsIdle(w', j);
        HttpKeeps(w', j, input.http, input.heard, now);
        HttpLeaves(w', j, input, now, i);
        var w'' := PumpHttp(w', j, input.http, input.heard, now);
        StillResting(w', w'', i);
        LeavesTrans(w, w', w'', i);
        if HasRequest(input.http) {
          HttpSize(w', j, input, now);
          ActivateLeaves(w'', j, now, i);
          v := Activate(w'', j, now);
          LeavesTrans(w, w'', v, i);
        } else {
          v := AcceptLeaves(w'', r, i);
          LeavesTrans(w, w'', v, i);
        }
      }
    }
  }

  lemma AcceptLeaves(w: World, r: Round, i: nat) returns (v: World)
    requires Inv(w) && w.queue == [] && Resting(w, i) && PollAt(r.polls, i).Quiet?
    ensures Leaves(w, v, i)
    ensures var t := AfterAccept(w, r);
            && t.world == (if t.outcome.NothingYet? then CheckDeadlines(v, r.limits) else v)
            && (t.outcome.NothingYet? ==> Inv(v)) && !t.outcome.Refused?
  {
    hide Inv, Sweep, Leaves, CheckDeadlines;
    SweepKeeps(w, r.polls, r.limits.now, 0);
    SweepLeaves(w, r.polls, r.limits.now, 0, i);
    v := Sweep(w, r.polls, r.limits.now, 0).world;
  }

  lemma CallLeaves(w: World, op: Op, fd: int, now: int, i: nat)
    requires Resting(w, i) && fd != w.slots[i].fd
    ensures Leaves(w, Handle(w, op, fd, now), i)
  {
    var k := FindSlot(w.slots, fd);
    Itself(w, i);
    if k < |w.slots| {
      if op.PumpNow? {
        SessionLeaves(w, k, op.feeds, i);
        SessionLeaves(HeardSession(w, k, now), k, op.feeds, i);
      }
    }
  }

  // ---------- a silent session over any run ----------

  /** The step does not concern the connection in slot i: poll says nothing about it, and no
      call is for its descriptor. */
  predicate Apart(w: World, s: Step, i: nat) {
    match s
    case RoundStep(r) => PollAt(r.polls, i).Quiet?
    case CallStep(_, fd, _) => i < |w.slots| && fd != w.slots[i].fd
  }

  predicate ReachesDeadlines(w: World, s: Step) {
    s.RoundStep? && Reaches(w, s.round)
  }

  /** Whatever else happens, nothing comes from the session, and every time the deadlines are
      reached it has been silent for too long. */
  ghost predicate SilentRun(w: World, steps: seq<Step>, i: nat, pingMax: int)
    decreases |steps|
  {
    steps == []
    || (&& Allowed(w, steps[0]) && Apart(w, steps[0], i)
        && (ReachesDeadlines(w, steps[0]) ==>
              i < |w.slots| && steps[0].round.limits.pingMax == pingMax
              && Silent(w.slots[i], steps[0].round.limits))
        && SilentRun(Next(w, steps[0]), steps[1..], i, pingMax))
  }

  /** How often the deadlines are reached. */
  function Checks(w: World, steps: seq<Step>): nat
    decreases |steps|
  {
    if steps == [] then 0
    else (if ReachesDeadlines(w, steps[0]) then 1 else 0) + Checks(Next(w, steps[0]), steps[1..])
  }

  function Reminders(fd: int, n: nat): seq<Notice> {
    seq(n, _ => Reminder(fd))
  }

  function Struck(s: Slot, n: nat): Slot {
    s.(timers := s.timers.(strikes := s.timers.strikes + n))
  }

  lemma {:induction false} SaidAbout(slots: seq<Slot>, l: Limits, from: nat, i: nat)
    requires from <= |slots| && i < |slots| && Distinct(slots) && slots[i].inUse
    ensures About(AllSaid(slots, l, from), slots[i].fd) == if from <= i then Said(slots[i], l) else []
    decreases |slots| - from
  {
    hide Said, Distinct;
    if from < |slots| {
      SaidAbout(slots, l, from + 1, i);
      AboutConcat(Said(slots[from], l), AllSaid(slots, l, from + 1), slots[i].fd);
      OnlyOwn(slots, l, from, i);
    }
  }

  lemma OnlyOwn(slots: seq<Slot>, l: Limits, j: nat, i: nat)
    requires j < |slots| && i < |slots| && Distinct(slots) && slots[i].inUse
    ensures About(Said(slots[j], l), slots[i].fd) == if j == i then Said(slots[i], l) else []
  {
    var said := Said(slots[j], l);
    if said != [] {
      assert |said| == 1 && said[..0] == [];
      assert said == [said[0]];
      if j < i {
        assert slots[j].inUse;
      } else if i < j {
        assert slots[j].inUse;
      }
    }
  }

  /** The deadlines, seen from one connection. */
  lemma DeadlineHere(w: World, l: Limits, i: nat)
    requires Inv(w) && i < |w.slots| && w.slots[i].inUse
    ensures var w' := CheckDeadlines(w, l);
            && i < |w'.slots| && w'.slots[i] == Kept(w.slots[i], l)
            && About(w'.notices, w.slots[i].fd) == About(w.notices, w.slots[i].fd) + Said(w.slots[i], l)
  {
    hide CheckDeadlines, Said, Kept, EndEvents;
    DeadlinesMean(w, l);
    SaidAbout(w.slots, l, 0, i);
    AboutConcat(w.notices, AllSaid(w.slots, l, 0), w.slots[i].fd);
  }

  lemma SilentStep(w: World, s: Step, i: nat, pingMax: int)
    requires Inv(w) && Allowed(w, s) && Apart(w, s, i) && Resting(w, i) && w.slots[i].phase == 3
    requires ReachesDeadlines(w, s) ==>
               s.round.limits.pingMax == pingMax && Silent(w.slots[i], s.round.limits)
    ensures var w', fd := Next(w, s), w.slots[i].fd;
            if !ReachesDeadlines(w, s) then Leaves(w, w', i)
            else
              && i < |w'.slots|
              && w'.slots[i] == (if w.slots[i].timers.strikes < pingMax then Struck(w.slots[i], 1) else FREE)
              && About(w'.notices, fd) == About(w.notices, fd)
                 + [if w.slots[i].timers.strikes < pingMax then Reminder(fd) else CloseSent(fd, 1000)]
  {
    hide Inv, Iterate, Handle, CheckDeadlines, Possible;
    match s
    case RoundStep(r) =>
      var v := RoundLeaves(w, r, i);
      if Reaches(w, r) {
        DeadlineHere(v, r.limits, i);
      }
    case CallStep(op, fd, now) => CallLeaves(w, op, fd, now, i);
  }

  lemma StepKeepsInv(w: World, s: Step)
    requires Inv(w) && Allowed(w, s)
    ensures Inv(Next(w, s))
  {
    hide Inv, Handle, Iterate, Possible;
    match s
    case RoundStep(r) => RoundKeeps(w, r);
    case CallStep(op, fd, now) => HandleKeepsIff(w, op, fd, now);
  }

  /** Over any run, whatever happens on other connections: a session from which nothing comes
      is reminded once every time its deadline is reached, as long as reminders are left, and
      nothing else happens to it. */
  lemma {:induction false} SilentIsReminded(w: World, steps: seq<Step>, i: nat, pingMax: int)
    requires Inv(w) && Resting(w, i) && w.slots[i].phase == 3 && SilentRun(w, steps, i, pingMax)
    requires w.slots[i].timers.strikes + Checks(w, steps) <= pingMax
    ensures var w', n, fd := Run(w, steps), Checks(w, steps), w.slots[i].fd;
            && Inv(w') && i < |w'.slots| && w'.slots[i] == Struck(w.slots[i], n)
            && About(w'.notices, fd) == About(w.notices, fd) + Reminders(fd, n)
    decreases |steps|
  {
    hide Inv, Next, Apart, Allowed, ReachesDeadlines, Silent, Leaves;
    var fd := w.slots[i].fd;
    if steps == [] {
      assert About(w.notices, fd) + Reminders(fd, 0) == About(w.notices, fd);
    } else {
      var w1 := Next(w, steps[0]);
      StepKeepsInv(w, steps[0]);
      SilentStep(w, steps[0], i, pingMax);
      if !ReachesDeadlines(w, steps[0]) {
        LeftAlone(w, w1, i);
        SilentIsReminded(w1, steps[1..], i, pingMax);
      } else {
        SilentIsReminded(w1, steps[1..], i, pingMax);
        var n := Checks(w1, steps[1..]);
        assert [Reminder(fd)] + Reminders(fd, n) == Reminders(fd, n + 1);
        assert About(w.notices, fd) + [Reminder(fd)] + Reminders(fd, n)
            == About(w.notices, fd) + ([Reminder(fd)] + Reminders(fd, n));
      }
    }
  }

  lemma LeftAlone(w: World, w': World, i: nat)
    requires Resting(w, i) && Leaves(w, w', i)
    ensures Resting(w', i) && w'.slots[i] == w.slots[i]
    ensures About(w'.notices, w.slots[i].fd) == About(w.notices, w.slots[i].fd)
  {
  }

  /** When all reminders are used up, the next time the deadline is reached the session is
      closed with code 1000: a session that was just heard gets exactly `pingMax` reminders. */
  lemma SilentIsClosed(w: World, steps: seq<Step>, last: Step, i: nat, pingMax: nat)
    requires Inv(w) && Resting(w, i) && w.slots[i].phase == 3 && w.slots[i].timers.strikes == 0
    requires SilentRun(w, steps, i, pingMax) && Checks(w, steps) == pingMax
    requires SilentRun(Run(w, steps), [last], i, pingMax) && ReachesDeadlines(Run(w, steps), last)
    ensures var w', fd := Next(Run(w, steps), last), w.slots[i].fd;
            && i < |w'.slots| && w'.slots[i] == FREE
            && About(w'.notices, fd) == About(w.notices, fd) + Reminders(fd, pingMax) + [CloseSent(fd, 1000)]
  {
    hide Inv, Next, Apart, Allowed, ReachesDeadlines, Silent, Run;
    SilentIsReminded(w, steps, i, pingMax);
    SilentStep(Run(w, steps), last, i, pingMax);
  }
}
