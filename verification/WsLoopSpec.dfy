/** The WebSocket bookkeeping of the event loop as a state machine on values
    (src/fastapi_mojo_rs/src/bridge/io.rs, conn.rs, ws_session_ffi.rs, conn/deadlines.rs). */
module WsLoopSpec {
  import opened Wrappers

  const MAX_CONNS: nat := 1024
  const WS_EV_MAX: nat := 2 * MAX_CONNS + 64

  const WS_EV_MSG: nat := 1
  const WS_EV_END: nat := 2

  // Phases of a connection.
  const READ_HEADER: nat := 0
  const READ_BODY: nat := 1
  const HTTP_DISPATCH: nat := 2
  const WS_SESSION: nat := 3
  const WS_DISPATCH: nat := 4
  const WS_CLOSE_WAIT: nat := 5
  const HTTP2: nat := 6

  /** The clock values of a connection, zero for none, and how often a silent session was
      reminded in a row. */
  datatype Timers = Timers(firstData: int, lastData: int, lastActive: int, closeAt: int, strikes: int)

  datatype Slot = Slot(inUse: bool, fd: int, phase: nat, h2: bool, timers: Timers)

  const FREE: Slot := Slot(false, -1, 0, false, Timers(0, 0, 0, 0, 0))

  /** A pending event, with the slot whose connection caused it. */
  datatype Event = Event(fd: int, kind: nat, owner: nat)

  /** What the loop sends by itself: the answer to a ping or to a close frame, a close frame of
      its own, a reminder, or the refusal of a request that took too long. */
  datatype Notice =
    | Pong(fd: int)
    | CloseReply(fd: int)
    | CloseSent(fd: int, code: nat)
    | Reminder(fd: int)
    | TimedOut(fd: int)

  /** The table, the queue, every event queued so far, every event taken out so far, how many
      pushes found the queue full, and everything sent. */
  datatype World = World(
    slots: seq<Slot>,
    queue: seq<Event>,
    pushed: seq<Event>,
    popped: seq<Event>,
    dropped: nat,
    notices: seq<Notice>)

  // ---------- table and queue ----------

  function Push(w: World, fd: int, kind: nat, owner: nat): World {
    if |w.queue| >= WS_EV_MAX then w.(dropped := w.dropped + 1)
    else w.(queue := w.queue + [Event(fd, kind, owner)], pushed := w.pushed + [Event(fd, kind, owner)])
  }

  function SetPhase(w: World, i: nat, phase: nat): World
    requires i < |w.slots|
  {
    w.(slots := w.slots[i := w.slots[i].(phase := phase)])
  }

  function SetTimers(w: World, i: nat, timers: Timers): World
    requires i < |w.slots|
  {
    w.(slots := w.slots[i := w.slots[i].(timers := timers)])
  }

  function Tell(w: World, notice: Notice): World {
    w.(notices := w.notices + [notice])
  }

  function Close(w: World, i: nat): World
    requires i < |w.slots|
  {
    w.(slots := w.slots[i := FREE])
  }

  /** Queues the end event and closes the connection. */
  function EndSession(w: World, i: nat): World
    requires i < |w.slots|
  {
    Close(Push(w, w.slots[i].fd, WS_EV_END, i), i)
  }

  /** The open slot of a descriptor, or the table size. */
  function FindSlot(slots: seq<Slot>, fd: int): (i: nat)
    ensures i <= |slots| && (i < |slots| ==> slots[i].inUse && slots[i].fd == fd)
    ensures i == |slots| ==> forall j :: 0 <= j < |slots| ==> !(slots[j].inUse && slots[j].fd == fd)
  {
    if slots == [] || (slots[0].inUse && slots[0].fd == fd) then 0 else 1 + FindSlot(slots[1..], fd)
  }

  /** The first free slot, or the table size. */
  function FirstFree(slots: seq<Slot>): (i: nat)
    ensures i <= |slots| && (i < |slots| ==> !slots[i].inUse) && forall j :: 0 <= j < i ==> slots[j].inUse
  {
    if slots == [] || !slots[0].inUse then 0 else 1 + FirstFree(slots[1..])
  }

  /** A slot for a new connection: a free one, else a new one, else none. */
  function Alloc(w: World, fd: int, now: int): Option<World> {
    var i := FirstFree(w.slots);
    var slot := Slot(true, fd, READ_HEADER, false, Timers(0, 0, now, 0, 0));
    if i < |w.slots| then Some(w.(slots := w.slots[i := slot]))
    else if |w.slots| < MAX_CONNS then Some(w.(slots := w.slots + [slot]))
    else None
  }

  // ---------- pumping one connection ----------

  /** What one step of reading gives: end of stream, nothing, a buffer to grow (or one at its
      limit), a protocol error, a control frame, a data message (acceptable, or refused with a
      close code), or part of a message. */
  datatype Feed = Eof | Again | Grow(ok: bool) | Broken | Control(opcode: nat) | Data(refusal: Option<nat>) | Partial

  const CLOSE_FRAME: nat := 8
  const PING_FRAME: nat := 9

  const GOING_AWAY: nat := 1001
  const PROTOCOL_ERROR: nat := 1002
  const POLICY: nat := 1008
  const TOO_BIG: nat := 1009
  const NORMAL: nat := 1000

  /** Sends a close frame and ends the session. */
  function EndWith(w: World, i: nat, code: nat): World
    requires i < |w.slots|
  {
    EndSession(Tell(w, CloseSent(w.slots[i].fd, code)), i)
  }

  /** An open session reads until it has a message, ends, or runs out of input. */
  function PumpSession(w: World, i: nat, feeds: seq<Feed>): World
    requires i < |w.slots|
    decreases |feeds|
  {
    if feeds == [] then w
    else
      match feeds[0]
      case Eof => EndWith(w, i, GOING_AWAY)
      case Again => w
      case Grow(ok) => if ok then PumpSession(w, i, feeds[1..]) else EndWith(w, i, TOO_BIG)
      case Broken => EndWith(w, i, PROTOCOL_ERROR)
      case Control(opcode) =>
        if opcode == CLOSE_FRAME then EndSession(Tell(w, CloseReply(w.slots[i].fd)), i)
        else PumpSession(if opcode == PING_FRAME then Tell(w, Pong(w.slots[i].fd)) else w, i, feeds[1..])
      case Data(refusal) => if refusal.None? then QueueMessage(w, i) else EndWith(w, i, refusal.value)
      case Partial => PumpSession(w, i, feeds[1..])
  }

  /** A message is queued and the connection waits for the application; with a full queue
      the session ends. */
  function QueueMessage(w: World, i: nat): World
    requires i < |w.slots|
  {
    var w' := Push(w, w.slots[i].fd, WS_EV_MSG, i);
    if |w.queue| >= WS_EV_MAX then EndWith(w', i, POLICY) else SetPhase(w', i, WS_DISPATCH)
  }

  /** After our close frame everything but the end of the session is ignored. */
  function PumpClosing(w: World, i: nat, feeds: seq<Feed>): World
    requires i < |w.slots|
    decreases |feeds|
  {
    if feeds == [] then w
    else
      match feeds[0]
      case Eof => EndSession(w, i)
      case Again => w
      case Grow(ok) => if ok then PumpClosing(w, i, feeds[1..]) else EndSession(w, i)
      case Broken => EndSession(w, i)
      case Control(opcode) => if opcode == CLOSE_FRAME then EndSession(w, i) else PumpClosing(w, i, feeds[1..])
      case Data(_) => PumpClosing(w, i, feeds[1..])
      case Partial => PumpClosing(w, i, feeds[1..])
  }

  /** What reading an HTTP connection comes to: it goes on, its header is there but not the
      body, it turns out to be HTTP/2 (with or without a request), a request is there, or the
      connection is closed. */
  datatype Http = Waiting | NeedsBody | Switched(request: bool) | Ready | Closed

  /** The clock values after reading: a header that is complete starts the request anew. */
  function HttpTimers(t: Timers, phase: nat, http: Http, heard: bool, now: int): Timers {
    if phase == READ_HEADER && (http.NeedsBody? || http.Ready?) then t.(firstData := now, lastData := now)
    else if !heard then t
    else if phase == READ_BODY then t.(lastData := now)
    else
      var t' := t.(firstData := if t.firstData == 0 then now else t.firstData, lastData := now);
      if phase == HTTP2 || http.Switched? then t'.(lastActive := now) else t'
  }

  function PumpHttp(w: World, i: nat, http: Http, heard: bool, now: int): World
    requires i < |w.slots|
  {
    var slot := w.slots[i].(timers := HttpTimers(w.slots[i].timers, w.slots[i].phase, http, heard, now));
    w.(slots := w.slots[i :=
        match http
        case Waiting => slot
        case NeedsBody => slot.(phase := READ_BODY)
        case Switched(request) => slot.(phase := if request then HTTP_DISPATCH else HTTP2, h2 := true)
        case Ready => slot.(phase := HTTP_DISPATCH)
        case Closed => FREE])
  }

  /** What a pump reads, and whether anything came from the socket. */
  datatype Input = Input(feeds: seq<Feed>, http: Http, heard: bool)

  /** Any data proves that the peer of a session is alive. */
  function HeardSession(w: World, i: nat, now: int): World
    requires i < |w.slots|
  {
    SetTimers(w, i, w.slots[i].timers.(lastData := now, strikes := 0))
  }

  function PumpConn(w: World, i: nat, input: Input, now: int): World
    requires i < |w.slots|
  {
    var phase := w.slots[i].phase;
    if phase == HTTP_DISPATCH || phase == WS_DISPATCH then w
    else if phase == WS_SESSION then PumpSession(if input.heard then HeardSession(w, i, now) else w, i, input.feeds)
    else if phase == WS_CLOSE_WAIT then PumpClosing(w, i, input.feeds)
    else PumpHttp(w, i, input.http, input.heard, now)
  }

  predicate HasRequest(http: Http) {
    http.Ready? || (http.Switched? && http.request)
  }

  /** The pump reports a request to dispatch. */
  predicate IsReady(w: World, i: nat, input: Input)
    requires i < |w.slots|
  {
    w.slots[i].phase !in {HTTP_DISPATCH, WS_DISPATCH, WS_SESSION, WS_CLOSE_WAIT} && HasRequest(input.http)
  }

  function Activate(w: World, i: nat, now: int): World
    requires i < |w.slots|
  {
    SetTimers(w, i, w.slots[i].timers.(lastActive := now))
  }

  // ---------- deadlines ----------

  datatype Action = Nothing | WsPing | WsClose1000 | WsCloseWaitTimeout | Timeout408 | CloseIdle

  datatype Limits = Limits(now: int, pingMax: int, closeWait: int, recvTimeout: int, idleMax: int, maxRequest: int)

  function Decide(phase: nat, t: Timers, l: Limits): Action {
    if phase == HTTP_DISPATCH || phase == WS_DISPATCH then Nothing
    else if phase == WS_CLOSE_WAIT then
      if t.closeAt != 0 && l.closeWait >= 0 && l.now - t.closeAt >= l.closeWait then WsCloseWaitTimeout else Nothing
    else if phase == WS_SESSION then
      if t.lastData != 0 && l.now - t.lastData >= l.recvTimeout then
        if t.strikes + 1 > l.pingMax then WsClose1000 else WsPing
      else Nothing
    else if t.firstData != 0 then
      if l.now - t.lastData >= l.recvTimeout || l.now - t.firstData >= l.maxRequest then Timeout408 else Nothing
    else if l.now - t.lastActive >= l.idleMax then CloseIdle
    else Nothing
  }

  function ApplyAction(w: World, i: nat, action: Action): World
    requires i < |w.slots|
  {
    var fd, t := w.slots[i].fd, w.slots[i].timers;
    match action
    case Nothing => w
    case WsPing => Tell(SetTimers(w, i, t.(strikes := t.strikes + 1)), Reminder(fd))
    case WsClose1000 => EndWith(SetTimers(w, i, t.(strikes := t.strikes + 1)), i, NORMAL)
    case WsCloseWaitTimeout => EndSession(w, i)
    case Timeout408 => Close(Tell(w, TimedOut(fd)), i)
    case CloseIdle => Close(w, i)
  }

  /** All decisions are taken first; a closed slot gets none. */
  function DecideAll(slots: seq<Slot>, l: Limits): (actions: seq<Action>)
    ensures |actions| == |slots|
  {
    seq(|slots|, i requires 0 <= i < |slots| =>
      if slots[i].inUse then Decide(slots[i].phase, slots[i].timers, l) else Nothing)
  }

  /** Then they are carried out, in table order. */
  function ApplyAll(w: World, actions: seq<Action>, from: nat): World
    requires from <= |actions| == |w.slots|
    decreases |actions| - from
  {
    if from == |actions| then w else ApplyAll(ApplyAction(w, from, actions[from]), actions, from + 1)
  }

  // ---------- one round of the loop ----------

  /** What poll says about a connection: nothing, only an error, or something to read. */
  datatype Poll = Quiet | HangUp | Readable(input: Input)

  /** A table after a scan, and the descriptor that became ready, if any. */
  datatype Scan = Scan(world: World, ready: Option<int>)

  function PollAt(polls: seq<Poll>, i: nat): Poll {
    if i < |polls| then polls[i] else Quiet
  }

  function InputAt(inputs: seq<Input>, i: nat): Input {
    if i < |inputs| then inputs[i] else Input([], Waiting, false)
  }

  /** Connections that poll reported, in table order, up to the first that is ready. */
  function Sweep(w: World, polls: seq<Poll>, now: int, from: nat): (s: Scan)
    requires from <= |w.slots|
    ensures |s.world.slots| == |w.slots|
    decreases |w.slots| - from
  {
    if from == |w.slots| then Scan(w, None)
    else if !w.slots[from].inUse || PollAt(polls, from).Quiet? then Sweep(w, polls, now, from + 1)
    else if PollAt(polls, from).HangUp? then Sweep(Close(w, from), polls, now, from + 1)
    else
      var input := PollAt(polls, from).input;
      PumpKeepsSize(w, from, input, now);
      var w' := PumpConn(w, from, input, now);
      if IsReady(w, from, input) then Scan(Activate(w', from, now), Some(w.slots[from].fd))
      else Sweep(w', polls, now, from + 1)
  }

  /** HTTP/2 connections with a buffered request, in table order, up to the first. */
  function ScanH2(w: World, inputs: seq<Input>, now: int, from: nat): (s: Scan)
    requires from <= |w.slots|
    ensures |s.world.slots| == |w.slots|
    decreases |w.slots| - from
  {
    if from == |w.slots| then Scan(w, None)
    else if !(w.slots[from].inUse && w.slots[from].phase == HTTP2) then ScanH2(w, inputs, now, from + 1)
    else
      var input := InputAt(inputs, from);
      var w' := PumpHttp(w, from, input.http, input.heard, now);
      if HasRequest(input.http) then Scan(Activate(w', from, now), Some(w.slots[from].fd))
      else ScanH2(w', inputs, now, from + 1)
  }

  lemma {:induction false} PumpKeepsSize(w: World, i: nat, input: Input, now: int)
    requires i < |w.slots|
    ensures |PumpConn(w, i, input, now).slots| == |w.slots|
  {
    SessionKeepsSize(if input.heard then HeardSession(w, i, now) else w, i, input.feeds);
    ClosingKeepsSize(w, i, input.feeds);
  }

  lemma {:induction false} SessionKeepsSize(w: World, i: nat, feeds: seq<Feed>)
    requires i < |w.slots|
    ensures |PumpSession(w, i, feeds).slots| == |w.slots|
    decreases |feeds|
  {
    if feeds != [] {
      SessionKeepsSize(w, i, feeds[1..]);
      SessionKeepsSize(Tell(w, Pong(w.slots[i].fd)), i, feeds[1..]);
    }
  }

  lemma {:induction false} ClosingKeepsSize(w: World, i: nat, feeds: seq<Feed>)
    requires i < |w.slots|
    ensures |PumpClosing(w, i, feeds).slots| == |w.slots|
    decreases |feeds|
  {
    if feeds != [] {
      ClosingKeepsSize(w, i, feeds[1..]);
    }
  }

  /** A connection just accepted, and what reading it at once comes to. */
  datatype Accepted = Accepted(fd: int, input: Input)

  /** Everything one round of the loop meets outside; its clock is `limits.now`. */
  datatype Round = Round(h2: seq<Input>, pollFailed: bool, accepted: Option<Accepted>, polls: seq<Poll>, limits: Limits)

  /** What a round hands to the application. */
  datatype Outcome = Delivered(fd: int, kind: nat) | Dispatched(fd: int) | Refused | NothingYet

  datatype Turn = Turn(world: World, outcome: Outcome)

  /** Takes the oldest event out; its connection, if still open, counts as active. */
  function Pop(w: World, now: int): World
    requires w.queue != []
  {
    var e := w.queue[0];
    var i := FindSlot(w.slots, e.fd);
    var w' := if i < |w.slots| then Activate(w, i, now) else w;
    w'.(queue := w.queue[1..], popped := w.popped + [e])
  }

  function Iterate(w: World, r: Round): Turn {
    var now := r.limits.now;
    if w.queue != [] then Turn(Pop(w, now), Delivered(w.queue[0].fd, w.queue[0].kind))
    else
      var s := ScanH2(w, r.h2, now, 0);
      if s.ready.Some? then Turn(s.world, Dispatched(s.ready.value))
      else if r.pollFailed then Turn(s.world, NothingYet)
      else AfterPoll(s.world, r)
  }

  function AfterPoll(w: World, r: Round): Turn {
    var now := r.limits.now;
    if r.accepted.None? then AfterAccept(w, r)
    else
      var fd, input := r.accepted.value.fd, r.accepted.value.input;
      var i := FirstFree(w.slots);
      match Alloc(w, fd, now)
      case None => Turn(w, Refused)
      case Some(w') =>
        var w'' := PumpHttp(w', i, input.http, input.heard, now);
        if HasRequest(input.http) then Turn(Activate(w'', i, now), Dispatched(fd)) else AfterAccept(w'', r)
  }

  function AfterAccept(w: World, r: Round): Turn {
    var s := Sweep(w, r.polls, r.limits.now, 0);
    if s.ready.Some? then Turn(s.world, Dispatched(s.ready.value))
    else Turn(CheckDeadlines(s.world, r.limits), NothingYet)
  }

  function CheckDeadlines(w: World, l: Limits): World {
    ApplyAll(w, DecideAll(w.slots, l), 0)
  }

  // ---------- what the application may call ----------

  datatype Op =
    | MessageDone
    | PumpNow(feeds: seq<Feed>, heard: bool)
    | ConnClose
    | SetClosing(wait: bool)
    | Upgrade
    | ConnDone(keep: bool)

  function Handle(w: World, op: Op, fd: int, now: int): World {
    var i := FindSlot(w.slots, fd);
    if i == |w.slots| then w
    else
      var slot, t := w.slots[i], w.slots[i].timers;
      match op
      case MessageDone => if slot.phase == WS_DISPATCH then SetPhase(w, i, WS_SESSION) else w
      case PumpNow(feeds, heard) =>
        if slot.phase == WS_SESSION then PumpSession(if heard then HeardSession(w, i, now) else w, i, feeds) else w
      case ConnClose => EndSession(w, i)
      case SetClosing(wait) =>
        if wait then SetPhase(SetTimers(w, i, t.(closeAt := now)), i, WS_CLOSE_WAIT) else EndSession(w, i)
      case Upgrade =>
        SetPhase(SetTimers(w, i, t.(firstData := 0, lastData := now, lastActive := now, strikes := 0)), i, WS_SESSION)
      case ConnDone(keep) =>
        var fresh_ := SetTimers(w, i, t.(firstData := 0, lastData := 0, lastActive := now));
        if slot.phase in {WS_SESSION, WS_DISPATCH, WS_CLOSE_WAIT} then w
        else if slot.h2 && (slot.phase == HTTP_DISPATCH || slot.phase == HTTP2) then SetPhase(fresh_, i, HTTP2)
        else if keep then SetPhase(fresh_, i, READ_HEADER)
        else Close(w, i)
  }
}
