/** Requests over the life of one HTTP/2 connection: receiving, dispatching and finishing
    (src/fastapi_mojo_rs/src/bridge/http2.rs, http2_io.rs and io.rs). */
module Http2Lifecycle {
  import opened Wrappers
  import opened Bits
  import opened Hpack
  import opened Http2Frames
  import opened Http2Requests
  import opened Http2Spec

  // ---------- what one frame keeps ----------

  /** Requests that were accepted and not handed over yet, oldest first. */
  function Waiting(h: H2): seq<Request> {
    (if h.ready.Some? then [h.ready.value] else []) + h.pending
  }

  predicate Below(requests: seq<Request>, stream: nat) {
    forall i :: 0 <= i < |requests| ==> requests[i].streamId < stream
  }

  predicate Increasing(requests: seq<Request>) {
    forall i, j :: 0 <= i < j < |requests| ==> requests[i].streamId < requests[j].streamId
  }

  /** A complete request: well-formed, within the body limit, and as long as it announced. */
  predicate Complete(r: Request, maxBody: nat) {
    && WellFormed(r) && |r.body| <= maxBody
    && ContentLength(r).Ok? && (ContentLength(r).value.Some? ==> ContentLength(r).value.value == |r.body|)
  }

  /** A stream under construction is newer than every accepted request. */
  ghost predicate Consistent(h: H2, maxBody: nat) {
    && Increasing(h.accepted)
    && (forall i :: 0 <= i < |h.accepted| ==> Complete(h.accepted[i], maxBody))
    && Below(h.accepted, h.lastStreamId + 1)
    && (h.partialRequest.Some? ==>
          && h.partialHeaders.None? && WellFormed(h.partialRequest.value)
          && |h.partialRequest.value.body| <= maxBody
          && h.partialRequest.value.streamId <= h.lastStreamId
          && Below(h.accepted, h.partialRequest.value.streamId))
    && (h.partialHeaders.Some? ==>
          && h.partialHeaders.value.stream <= h.lastStreamId
          && Below(h.accepted, h.partialHeaders.value.stream))
  }

  /** From h to h' some requests were accepted, and they all wait, in order, behind the
      ones already waiting; nothing is promoted past a waiting request. */
  ghost predicate OnlyQueues(h: H2, h': H2) {
    && h.accepted <= h'.accepted
    && Waiting(h') == Waiting(h) + h'.accepted[|h.accepted|..]
    && h'.current == h.current
    && (h'.ready.None? ==> h'.pending == [])
  }

  /** Changes that do not concern requests, and giving up a partial one, keep everything. */
  lemma SameRequests(h: H2, h': H2, maxBody: nat)
    requires Consistent(h, maxBody) && (h.ready.None? ==> h.pending == [])
    requires h'.accepted == h.accepted && h'.ready == h.ready && h'.pending == h.pending && h'.current == h.current
    requires h'.lastStreamId == h.lastStreamId && h'.partialHeaders == h.partialHeaders
    requires h'.partialRequest == h.partialRequest || h'.partialRequest.None?
    ensures Consistent(h', maxBody) && OnlyQueues(h, h')
  {
  }

  lemma QueueKeeps(h: H2, r: Request, maxBody: nat)
    requires Consistent(h, maxBody) && (h.ready.None? ==> h.pending == [])
    requires h.partialRequest.None? && h.partialHeaders.None?
    requires Complete(r, maxBody) && Below(h.accepted, r.streamId) && r.streamId <= h.lastStreamId
    ensures Consistent(QueueRequest(h, r).h, maxBody) && OnlyQueues(h, QueueRequest(h, r).h)
  {
    hide Complete;
  }

  lemma StartKeeps(h: H2, r: Request, endStream: bool, maxBody: nat)
    requires Consistent(h, maxBody) && (h.ready.None? ==> h.pending == [])
    requires h.partialRequest.None? && h.partialHeaders.None?
    requires WellFormed(r) && r.body == [] && Below(h.accepted, r.streamId) && r.streamId <= h.lastStreamId
    ensures Consistent(StartRequest(h, r, endStream, maxBody).h, maxBody)
    ensures OnlyQueues(h, StartRequest(h, r, endStream, maxBody).h)
  {
    hide ContentLength, WellFormed, QueueRequest;
    var length := ContentLength(r);
    if length.Ok? && endStream && !(length.value.Some? && length.value.value != 0) {
      QueueKeeps(h, r, maxBody);
    }
  }

  lemma DecodeKeeps(h: H2, stream: nat, block: seq<byte>, endStream: bool, maxBody: nat)
    requires Consistent(h, maxBody) && (h.ready.None? ==> h.pending == [])
    requires h.partialRequest.None? && h.partialHeaders.None?
    requires Below(h.accepted, stream) && stream <= h.lastStreamId
    ensures Consistent(DecodeHeaders(h, stream, block, endStream, maxBody).h, maxBody)
    ensures OnlyQueues(h, DecodeHeaders(h, stream, block, endStream, maxBody).h)
  {
    hide ReadBlock, StartRequest, WellFormed, Complete, AddHeaders;
    var decoded := ReadBlock(h.table, block, true, []);
    if decoded.result.Ok? && AddHeaders(Head([], [], [], [], []), decoded.result.value).Ok? {
      var head := AddHeaders(Head([], [], [], [], []), decoded.result.value).value;
      if MakeRequest(stream, head).Ok? {
        RequestIsWellFormed(stream, decoded.result.value);
        StartKeeps(h.(table := decoded.table), MakeRequest(stream, head).value, endStream, maxBody);
      }
    }
  }

  lemma HeadersKeep(h: H2, f: Frame, maxBody: nat)
    requires Consistent(h, maxBody) && (h.ready.None? ==> h.pending == []) && f.stream > h.lastStreamId
    ensures var h' := HandleHeaders(h.(lastStreamId := f.stream), f, maxBody).h;
            Consistent(h', maxBody) && OnlyQueues(h, h')
  {
    hide DecodeHeaders, WellFormed, Complete, RemovePadding;
    var g := h.(lastStreamId := f.stream);
    if g.partialHeaders.None? && g.partialRequest.None? && RemovePadding(f.flags, f.payload).Unpadded? {
      var padded := RemovePadding(f.flags, f.payload).data;
      if !(Has(f.flags, PRIORITY_FLAG) && |padded| < 5) {
        var data := if Has(f.flags, PRIORITY_FLAG) then padded[5..] else padded;
        DecodeKeeps(g, f.stream, data, Has(f.flags, END_STREAM), maxBody);
      }
    }
  }

  lemma ContinuationKeeps(h: H2, f: Frame, maxBody: nat)
    requires Consistent(h, maxBody) && (h.ready.None? ==> h.pending == [])
    ensures var h' := HandleContinuation(h, f, maxBody).h; Consistent(h', maxBody) && OnlyQueues(h, h')
  {
    hide DecodeHeaders, WellFormed, Complete;
    if h.partialHeaders.Some? && h.partialHeaders.value.stream == f.stream {
      var part := h.partialHeaders.value;
      DecodeKeeps(h.(partialHeaders := None), f.stream, part.block + f.payload, part.endStream, maxBody);
    }
  }

  lemma BodyKeepsShape(r: Request, body: seq<byte>)
    ensures WellFormed(r.(body := body)) <==> WellFormed(r)
  {
  }

  /** A longer body keeps the partial request consistent. */
  lemma LongerBodyKeeps(h: H2, g: H2, body: seq<byte>, maxBody: nat)
    requires Consistent(h, maxBody) && (h.ready.None? ==> h.pending == [])
    requires h.partialRequest.Some? && |body| <= maxBody
    requires g == h.(frames := g.frames, partialRequest := Some(h.partialRequest.value.(body := body)))
    ensures Consistent(g, maxBody) && OnlyQueues(h, g)
  {
  }

  lemma FinishKeeps(h: H2, g: H2, r: Request, maxBody: nat)
    requires Consistent(h, maxBody) && (h.ready.None? ==> h.pending == [])
    requires h.partialRequest.Some? && h.partialHeaders.None?
    requires r == h.partialRequest.value.(body := r.body) && |r.body| <= maxBody
    requires g == h.(frames := g.frames, partialRequest := None)
    ensures Consistent(FinishRequest(g, r).h, maxBody) && OnlyQueues(h, FinishRequest(g, r).h)
  {
    hide WellFormed, ContentLength, QueueRequest;
    BodyKeepsShape(h.partialRequest.value, r.body);
    SameRequests(h, g, maxBody);
    if Complete(r, maxBody) {
      QueueKeeps(g, r, maxBody);
      OnlyQueuesTrans(h, g, QueueRequest(g, r).h);
    }
  }

  lemma DataKeeps(h: H2, f: Frame, maxBody: nat)
    requires Consistent(h, maxBody) && (h.ready.None? ==> h.pending == []) && h.partialHeaders.None?
    requires f.stream < 0x8000_0000
    ensures var h' := HandleData(h, f, maxBody).h; Consistent(h', maxBody) && OnlyQueues(h, h')
  {
    hide Consistent, OnlyQueues, FinishRequest, RemovePadding, FrameBytes, Be32, WellFormed, ContentLength;
    var g := WindowUpdates(h, f);
    SameRequests(h, g, maxBody);
    if RemovePadding(f.flags, f.payload).Unpadded? && h.partialRequest.Some? {
      var r := h.partialRequest.value;
      var r' := r.(body := r.body + RemovePadding(f.flags, f.payload).data);
      if |r'.body| <= maxBody {
        LongerBodyKeeps(h, g.(partialRequest := Some(r')), r'.body, maxBody);
        FinishKeeps(h, g.(partialRequest := None), r', maxBody);
      }
    }
  }

  lemma {:induction false} SettingsKeep(h: H2, payload: seq<byte>, maxBody: nat)
    requires Consistent(h, maxBody) && (h.ready.None? ==> h.pending == [])
    ensures var h' := ApplySettings(h, payload).h; Consistent(h', maxBody) && OnlyQueues(h, h')
    decreases |payload|
  {
    hide Complete, WellFormed, FromBe32, Clamp;
    if |payload| >= 6 {
      var id := payload[0] as nat * 256 + payload[1];
      var value := FromBe32(payload[2], payload[3], payload[4], payload[5]);
      var g := if id == 4 then h.(peerInitialWindow := value,
          sendWindow := Clamp(h.sendWindow + value - h.peerInitialWindow))
               else if id == 5 then h.(maxFrameSize := value) else h;
      SettingsKeep(g, payload[6..], maxBody);
    }
  }

  lemma ControlKeeps(h: H2, f: Frame, maxBody: nat)
    requires Consistent(h, maxBody) && (h.ready.None? ==> h.pending == [])
    ensures var h' := HandleControl(h, f).h; Consistent(h', maxBody) && OnlyQueues(h, h')
  {
    hide Consistent, OnlyQueues, FrameBytes, ApplySettings, HandleWindowUpdate;
    var s := ApplySettings(h, f.payload).h;
    SettingsKeep(h, f.payload, maxBody);
    AcknowledgedKeep(h, s, maxBody);
    SameRequests(h, h, maxBody);
    SameRequests(h, Push(h, FrameBytes(PING, ACK, 0, f.payload)), maxBody);
    WindowKeeps(h, f, maxBody);
    SameRequests(h, h.(partialRequest := None), maxBody);
  }

  lemma AcknowledgedKeep(h: H2, s: H2, maxBody: nat)
    requires Consistent(s, maxBody) && OnlyQueues(h, s)
    ensures var g := Push(s, FrameBytes(SETTINGS, ACK, 0, [])); Consistent(g, maxBody) && OnlyQueues(h, g)
  {
    hide Complete, WellFormed, FrameBytes;
  }

  lemma WindowKeeps(h: H2, f: Frame, maxBody: nat)
    requires Consistent(h, maxBody) && (h.ready.None? ==> h.pending == [])
    ensures var g := HandleWindowUpdate(h, f).h; Consistent(g, maxBody) && OnlyQueues(h, g)
  {
    hide Consistent, OnlyQueues, FromBe32, Clamp;
    SameRequests(h, HandleWindowUpdate(h, f).h, maxBody);
  }

  /** Whatever the frame and whether or not it fails: the connection stays consistent, and
      requests are only ever added behind those already waiting. */
  lemma FrameKeeps(h: H2, f: Frame, maxBody: nat)
    requires Consistent(h, maxBody) && (h.ready.None? ==> h.pending == []) && f.stream < 0x8000_0000
    ensures var h' := HandleFrame(h, f, maxBody).h; Consistent(h', maxBody) && OnlyQueues(h, h')
  {
    hide Complete, WellFormed, HandleData, HandleHeaders, HandleContinuation, HandleControl;
    if h.partialHeaders.Some? && f.ty != CONTINUATION {
    } else if f.ty == DATA && IsClientStream(f.stream) {
      DataKeeps(h, f, maxBody);
    } else if f.ty == HEADERS && IsClientStream(f.stream) && f.stream > h.lastStreamId {
      HeadersKeep(h, f, maxBody);
    } else if f.ty == CONTINUATION && f.stream != 0 {
      ContinuationKeeps(h, f, maxBody);
    } else {
      ControlKeeps(h, f, maxBody);
    }
  }

  lemma PromoteKeeps(h: H2, maxBody: nat)
    requires h.ready.None? ==> h.pending == []
    ensures Promote(h) == h
  {
  }

  lemma OnlyQueuesTrans(a: H2, b: H2, c: H2)
    requires OnlyQueues(a, b) && OnlyQueues(b, c)
    ensures OnlyQueues(a, c)
  {
    assert c.accepted[|a.accepted|..] == b.accepted[|a.accepted|..] + c.accepted[|b.accepted|..];
  }

  lemma OnlyQueuesRefl(h: H2)
    requires h.ready.None? ==> h.pending == []
    ensures OnlyQueues(h, h)
  {
    assert h.accepted[|h.accepted|..] == [];
  }

  /** The same for everything the receive buffer holds, failing frames included. */
  lemma {:induction false} DrainKeeps(h: H2, rx: seq<byte>, maxBody: nat)
    requires Consistent(h, maxBody) && (h.ready.None? ==> h.pending == [])
    ensures var h' := Drain(h, rx, maxBody).h; Consistent(h', maxBody) && OnlyQueues(h, h')
    decreases |rx|
  {
    hide HandleFrame, Promote, WireLength, FrameAt, Consistent, OnlyQueues;
    OnlyQueuesRefl(h);
    if |rx| >= FRAME_HEADER && WireLength(rx) <= h.maxFrameSize && |rx| >= FRAME_HEADER + WireLength(rx) {
      var o := HandleFrame(h, FrameAt(rx), maxBody);
      FrameKeeps(h, FrameAt(rx), maxBody);
      if o.error.None? {
        QueuesHaveNoGap(h, o.h);
        PromoteKeeps(o.h, maxBody);
        DrainKeeps(o.h, rx[FRAME_HEADER + WireLength(rx)..], maxBody);
        OnlyQueuesTrans(h, o.h, Drain(h, rx, maxBody).h);
      }
    }
  }

  lemma QueuesHaveNoGap(h: H2, h': H2)
    requires OnlyQueues(h, h')
    ensures h'.ready.None? ==> h'.pending == []
  {
  }

  // ---------- dispatching ----------

  /** Takes the oldest waiting request for dispatch. */
  function TakeReady(h: H2): H2
    requires Waiting(h) != []
  {
    var g := if h.ready.None? then h.(ready := Some(h.pending[0]), pending := h.pending[1..]) else h;
    g.(ready := None, current := g.ready)
  }

  /** Ends the current request; the next pending one becomes ready. */
  function FinishCurrent(h: H2): H2 {
    if h.pending == [] then h.(current := None, ready := None)
    else h.(current := None, ready := Some(h.pending[0]), pending := h.pending[1..])
  }

  /** Why dispatching must come first: finishing keeps every waiting request exactly when
      nothing is ready; a ready one would be overwritten. */
  lemma FinishKeepsWaitingIff(h: H2)
    ensures Waiting(FinishCurrent(h)) == Waiting(h) <==> h.ready.None?
  {
  }

  /** Why frames must not be read while requests are pending behind an empty ready slot: a
      newly accepted request would overtake them, and only then. */
  lemma QueueKeepsOrderIff(h: H2, r: Request)
    requires QueueRequest(h, r).error.None? && r !in h.pending
    ensures Waiting(QueueRequest(h, r).h) == Waiting(h) + [r] <==> (h.ready.None? ==> h.pending == [])
  {
    var after := Waiting(QueueRequest(h, r).h);
    if h.ready.None? && h.pending != [] {
      assert after[0] == r && (Waiting(h) + [r])[0] == h.pending[0];
    }
  }

  /** What the socket gave: end of stream, nothing yet, a hard error, or some bytes. */
  datatype Received = Eof | Again | Failed | Bytes(bytes: seq<byte>)

  /** One step of the server on this connection.  Whether the two flushes of control frames
      succeed, what is received and whether the request body is acceptable text are up to
      the environment. */
  datatype Event =
    | Pump(flushed: bool, received: Received, flushedAfter: bool, textOk: bool)
    | Done
    | Close

  const IDLE: nat := 6
  const DISPATCHING: nat := 2

  /** A connection table entry: `handed` records the requests handed to the application,
      `sent` the control frames taken from the queue for sending, and `aborted` that a step
      ended the program instead of the connection. */
  datatype Conn = Conn(
    alive: bool,
    aborted: bool,
    phase: nat,
    h: H2,
    rx: seq<byte>,
    handed: seq<Request>,
    sent: seq<seq<byte>>)

  function Flushed(h: H2): H2 {
    h.(frames := [])
  }

  /** Sends the queued control frames. */
  function Flush(c: Conn): Conn {
    c.(h := Flushed(c.h), sent := c.sent + c.h.frames)
  }

  const INTERNAL_GOAWAY: nat := 10
  const INTERNAL_RESET: nat := 3

  function U32(v: nat): (r: nat)
    ensures r < 0x1_0000_0000
  {
    v % 0x1_0000_0000
  }

  /** Answers a failed feed: the last stream seen, and an internal error. */
  function Goaway(h: H2): H2 {
    Push(h, FrameBytes(GOAWAY, 0, 0, Be32(U32(h.lastStreamId)) + Be32(INTERNAL_GOAWAY)))
  }

  /** Answers a request whose body is not acceptable. */
  function Reset(h: H2, stream: nat): H2 {
    Push(h, FrameBytes(RST_STREAM, 0, U32(stream), Be32(INTERNAL_RESET)))
  }

  /** Hands the oldest waiting request over; a body that is not text closes the connection. */
  function Dispatch(c: Conn, textOk: bool): Conn
    requires Waiting(c.h) != []
  {
    var h := TakeReady(c.h);
    if !textOk then Flush(c.(h := Reset(h, Waiting(c.h)[0].streamId), alive := false))
    else c.(h := h, phase := DISPATCHING, handed := c.handed + [Waiting(c.h)[0]])
  }

  ghost function AfterFeed(c: Conn, d: Drained, flushedAfter: bool, textOk: bool): Conn {
    var c' := Flush(c.(h := if d.error.Some? then Goaway(d.h) else d.h, rx := d.rx));
    if !flushedAfter then c'.(alive := false)
    else if d.error.Some? || Waiting(c'.h) == [] then c'
    else Dispatch(c', textOk)
  }

  ghost function Next(c: Conn, e: Event, maxBody: nat): Conn {
    if !c.alive then c
    else
      match e
      case Close => c.(alive := false)
      case Done => if c.phase == DISPATCHING then c.(phase := IDLE, h := FinishCurrent(c.h)) else c
      case Pump(flushed, received, flushedAfter, textOk) =>
        if c.phase == DISPATCHING then c
        else if !flushed then Flush(c).(alive := false)
        else
          var c' := Flush(c);
          if Waiting(c'.h) != [] then Dispatch(c', textOk)
          else
            match received
            case Eof => c'.(alive := false)
            case Again => c'
            case Failed => c'.(alive := false, aborted := true)
            case Bytes(bytes) => AfterFeed(c', Feed(c'.h, c'.rx, bytes, maxBody), flushedAfter, textOk)
  }

  /** In every reachable state the accepted requests are those handed over followed by those
      still waiting; while one is being dispatched nothing is ready, and otherwise nothing is
      pending behind an empty ready slot. */
  ghost predicate Sound(c: Conn, maxBody: nat) {
    && Consistent(c.h, maxBody)
    && c.handed <= c.h.accepted
    && (c.alive ==>
          && c.h.accepted == c.handed + Waiting(c.h)
          && (c.phase == DISPATCHING || c.phase == IDLE)
          && (c.phase == DISPATCHING ==>
                c.h.ready.None? && c.handed != [] && c.h.current == Some(c.handed[|c.handed| - 1]))
          && (c.phase == IDLE ==> c.h.current.None? && (c.h.ready.None? ==> c.h.pending == [])))
  }

  lemma DispatchKeeps(c: Conn, textOk: bool, maxBody: nat)
    requires Sound(c, maxBody) && c.alive && c.phase == IDLE && Waiting(c.h) != []
    ensures Sound(Dispatch(c, textOk), maxBody)
  {
  }

  lemma DoneKeeps(c: Conn, maxBody: nat)
    requires Sound(c, maxBody) && c.alive && c.phase == DISPATCHING
    ensures Sound(Next(c, Done, maxBody), maxBody)
  {
    hide Complete, WellFormed;
    assert Waiting(FinishCurrent(c.h)) == Waiting(c.h);
  }

  lemma FlushKeeps(c: Conn, maxBody: nat)
    requires Sound(c, maxBody)
    ensures Sound(Flush(c), maxBody)
  {
    hide Complete, WellFormed;
  }

  lemma FeedKeeps(c: Conn, bytes: seq<byte>, maxBody: nat)
    requires Sound(c, maxBody) && c.alive && c.phase == IDLE
    ensures var d := Feed(c.h, c.rx, bytes, maxBody); Sound(c.(h := d.h, rx := d.rx), maxBody)
  {
    hide Complete, WellFormed, Drain;
    OnlyQueuesRefl(c.h);
    DrainKeeps(c.h, c.rx + bytes, maxBody);
  }

  lemma GoawayKeeps(c: Conn, maxBody: nat)
    requires Sound(c, maxBody)
    ensures Sound(c.(h := Goaway(c.h)), maxBody)
  {
    hide Complete, WellFormed, FrameBytes, Be32;
  }

  lemma StepKeeps(c: Conn, e: Event, maxBody: nat)
    requires Sound(c, maxBody)
    ensures Sound(Next(c, e, maxBody), maxBody)
  {
    hide Consistent, Feed, Dispatch, FinishCurrent, Waiting, Flushed;
    if c.alive {
      FlushKeeps(c, maxBody);
      var c' := Flush(c);
      match e
      case Close =>
      case Done => if c.phase == DISPATCHING { DoneKeeps(c, maxBody); }
      case Pump(flushed, received, flushedAfter, textOk) =>
        if c.phase == IDLE && flushed {
          if Waiting(c'.h) != [] {
            DispatchKeeps(c', textOk, maxBody);
          } else if received.Bytes? {
            var d := Feed(c'.h, c'.rx, received.bytes, maxBody);
            FeedKeeps(c', received.bytes, maxBody);
            GoawayKeeps(c'.(h := d.h, rx := d.rx), maxBody);
            var fed := c'.(h := if d.error.Some? then Goaway(d.h) else d.h, rx := d.rx);
            FlushKeeps(fed, maxBody);
            var flushed := Flush(fed);
            if Waiting(flushed.h) != [] {
              DispatchKeeps(flushed, textOk, maxBody);
            }
          }
        }
    }
  }

  // ---------- whole runs ----------

  /** A connection just switched to HTTP/2, with bytes left from the preface read. */
  function NewConn(rx: seq<byte>): Conn {
    Conn(true, false, IDLE, NewH2(), rx, [], [])
  }

  ghost function Run(c: Conn, events: seq<Event>, maxBody: nat): Conn
    decreases |events|
  {
    if events == [] then c else Run(Next(c, events[0], maxBody), events[1..], maxBody)
  }

  lemma {:induction false} RunKeeps(c: Conn, events: seq<Event>, maxBody: nat)
    requires Sound(c, maxBody)
    ensures Sound(Run(c, events, maxBody), maxBody)
    decreases |events|
  {
    hide Sound, Next;
    if events != [] {
      StepKeeps(c, events[0], maxBody);
      RunKeeps(Next(c, events[0], maxBody), events[1..], maxBody);
    }
  }

  /** Over every run, failed feeds included: requests are handed over in strictly increasing
      stream order, so none twice; each is complete; and while the connection lives none is
      dropped: the accepted ones are those handed over followed by those still waiting. */
  lemma EveryRunDelivers(rx: seq<byte>, events: seq<Event>, maxBody: nat)
    ensures var c := Run(NewConn(rx), events, maxBody);
            && Increasing(c.handed)
            && (forall i :: 0 <= i < |c.handed| ==> Complete(c.handed[i], maxBody))
            && c.handed <= c.h.accepted
            && (c.alive ==> c.h.accepted == c.handed + Waiting(c.h))
  {
    hide Complete;
    RunKeeps(NewConn(rx), events, maxBody);
  }

  /** Nothing handed over or accepted is ever taken back. */
  lemma {:induction false} RunsOnlyAppend(c: Conn, events: seq<Event>, maxBody: nat)
    requires Sound(c, maxBody)
    ensures c.handed <= Run(c, events, maxBody).handed
    ensures c.h.accepted <= Run(c, events, maxBody).h.accepted
    decreases |events|
  {
    hide Sound, Next;
    if events != [] {
      StepAppends(c, events[0], maxBody);
      StepKeeps(c, events[0], maxBody);
      RunsOnlyAppend(Next(c, events[0], maxBody), events[1..], maxBody);
    }
  }

  lemma StepAppends(c: Conn, e: Event, maxBody: nat)
    requires Sound(c, maxBody)
    ensures c.handed <= Next(c, e, maxBody).handed && c.h.accepted <= Next(c, e, maxBody).h.accepted
  {
    hide Consistent, Feed, AfterFeed, Waiting;
    if c.alive && e.Pump? && c.phase == IDLE && e.received.Bytes? {
      FlushKeeps(c, maxBody);
      FeedAppends(Flush(c), e.received.bytes, e.flushedAfter, e.textOk, maxBody);
    }
  }

  lemma FeedAppends(c: Conn, bytes: seq<byte>, flushedAfter: bool, textOk: bool, maxBody: nat)
    requires Sound(c, maxBody) && c.alive && c.phase == IDLE
    ensures var c' := AfterFeed(c, Feed(c.h, c.rx, bytes, maxBody), flushedAfter, textOk);
            c.handed <= c'.handed && c.h.accepted <= c'.h.accepted
  {
    hide Consistent, Drain, Waiting;
    OnlyQueuesRefl(c.h);
    DrainKeeps(c.h, c.rx + bytes, maxBody);
  }

  // ---------- what is sent ----------

  /** The control frames a step queues: the answers to what is read, a GOAWAY if that fails,
      and a reset for a request that is not acceptable. */
  ghost function Answers(c: Conn, e: Event, maxBody: nat): seq<seq<byte>> {
    if !c.alive || c.phase == DISPATCHING || !e.Pump? || !e.flushed then []
    else if Waiting(c.h) != [] then Refusal(c.h, e.textOk)
    else if !e.received.Bytes? then []
    else
      var d := Feed(Flushed(c.h), c.rx, e.received.bytes, maxBody);
      if d.error.Some? then
        d.h.frames + [FrameBytes(GOAWAY, 0, 0, Be32(U32(d.h.lastStreamId)) + [0, 0, 0, 10])]
      else if e.flushedAfter then d.h.frames + Refusal(d.h, e.textOk)
      else d.h.frames
  }

  function Refusal(h: H2, textOk: bool): seq<seq<byte>> {
    if textOk || Waiting(h) == [] then []
    else [FrameBytes(RST_STREAM, 0, U32(Waiting(h)[0].streamId), [0, 0, 0, 3])]
  }

  ghost function AllAnswers(c: Conn, events: seq<Event>, maxBody: nat): seq<seq<byte>>
    decreases |events|
  {
    if events == [] then []
    else Answers(c, events[0], maxBody) + AllAnswers(Next(c, events[0], maxBody), events[1..], maxBody)
  }

  lemma StepAnswers(c: Conn, e: Event, maxBody: nat)
    ensures var c' := Next(c, e, maxBody);
            c'.sent + c'.h.frames == c.sent + c.h.frames + Answers(c, e, maxBody)
    ensures e.Pump? && c.alive && c.phase != DISPATCHING ==> Next(c, e, maxBody).h.frames == []
  {
    hide Feed, Dispatch, AfterFeed, Refusal, Waiting;
    if c.alive && c.phase != DISPATCHING && e.Pump? && e.flushed {
      var c' := Flush(c);
      FlushWaits(c.h);
      if Waiting(c.h) != [] {
        DispatchAnswers(c', e.textOk);
      } else if e.received.Bytes? {
        FeedAnswers(c', Feed(c'.h, c'.rx, e.received.bytes, maxBody), e.flushedAfter, e.textOk);
      }
    }
  }

  lemma FlushWaits(h: H2)
    ensures Waiting(Flushed(h)) == Waiting(h) && Waiting(Goaway(h)) == Waiting(h)
    ensures forall textOk :: Refusal(Flushed(h), textOk) == Refusal(h, textOk)
  {
    hide FrameBytes, Be32;
  }

  lemma DispatchAnswers(c: Conn, textOk: bool)
    requires Waiting(c.h) != [] && c.h.frames == []
    ensures var c' := Dispatch(c, textOk); c'.sent == c.sent + Refusal(c.h, textOk) && c'.h.frames == []
  {
    hide FrameBytes, Be32;
    CodesOnTheWire();
  }

  lemma FeedAnswers(c: Conn, d: Drained, flushedAfter: bool, textOk: bool)
    ensures var c' := AfterFeed(c, d, flushedAfter, textOk);
            && c'.h.frames == []
            && c'.sent == c.sent + d.h.frames
               + if d.error.Some? then [FrameBytes(GOAWAY, 0, 0, Be32(U32(d.h.lastStreamId)) + [0, 0, 0, 10])]
                 else if flushedAfter then Refusal(d.h, textOk)
                 else []
  {
    hide FrameBytes, Be32, Waiting, Refusal, Dispatch;
    CodesOnTheWire();
    FlushWaits(d.h);
    if Waiting(d.h) == [] {
      NoRefusal(d.h, textOk);
    }
    if d.error.None? && flushedAfter && Waiting(d.h) != [] {
      DispatchAnswers(Flush(c.(h := d.h, rx := d.rx)), textOk);
    }
  }

  lemma NoRefusal(h: H2, textOk: bool)
    requires Waiting(h) == []
    ensures Refusal(h, textOk) == []
  {
  }

  lemma CodesOnTheWire()
    ensures Be32(INTERNAL_GOAWAY) == [0, 0, 0, 10] && Be32(INTERNAL_RESET) == [0, 0, 0, 3]
  {
  }

  /** Over every run the control frames sent, with those still queued, are exactly those that
      the steps queued, in order; none is lost, repeated or invented. */
  lemma {:induction false} AnswersAreSent(c: Conn, events: seq<Event>, maxBody: nat)
    ensures var c' := Run(c, events, maxBody);
            c'.sent + c'.h.frames == c.sent + c.h.frames + AllAnswers(c, events, maxBody)
    decreases |events|
  {
    hide Next, Answers;
    if events != [] {
      StepAnswers(c, events[0], maxBody);
      AnswersAreSent(Next(c, events[0], maxBody), events[1..], maxBody);
    } else {
      assert c.h.frames + [] == c.h.frames;
      assert c.sent + c.h.frames + [] == c.sent + c.h.frames;
    }
  }

  /** A hard receive error ends the program: its negative code is used as a length.  No other
      step does. */
  lemma AbortsIff(c: Conn, e: Event, maxBody: nat)
    requires !c.aborted
    ensures Next(c, e, maxBody).aborted
            <==> c.alive && c.phase != DISPATCHING && Waiting(c.h) == []
                 && e.Pump? && e.flushed && e.received.Failed?
  {
    hide Feed;
  }

  /** The requests waiting once the received bytes have been read; none after an error. */
  ghost function Readable(c: Conn, bytes: seq<byte>, maxBody: nat): seq<Request> {
    var d := Feed(Flushed(c.h), c.rx, bytes, maxBody);
    if d.error.Some? then [] else Waiting(d.h)
  }

  /** A live connection is closed when it is told to, and by a pump while no request is under
      way: if frames cannot be sent, if the request to hand over is not text, or if the peer has
      gone.  Errors of the protocol do not close it. */
  lemma ClosesIff(c: Conn, e: Event, maxBody: nat)
    requires c.alive
    ensures !Next(c, e, maxBody).alive
            <==> || e.Close?
                 || (&& e.Pump? && c.phase != DISPATCHING
                     && (|| !e.flushed
                         || (Waiting(c.h) != [] && !e.textOk)
                         || (Waiting(c.h) == [] && (e.received.Eof? || e.received.Failed?))
                         || (&& Waiting(c.h) == [] && e.received.Bytes?
                             && (!e.flushedAfter
                                 || (Readable(c, e.received.bytes, maxBody) != [] && !e.textOk)))))
  {
    hide Feed, TakeReady, FinishCurrent, Goaway, Reset;
    FlushWaits(c.h);
    if e.Pump? && e.received.Bytes? {
      FlushWaits(Feed(Flushed(c.h), c.rx, e.received.bytes, maxBody).h);
    }
  }

  /** The next pump of a live idle connection hands over the oldest waiting request. */
  lemma NextPumpDelivers(c: Conn, received: Received, flushedAfter: bool, maxBody: nat)
    requires Sound(c, maxBody) && c.alive && c.phase == IDLE && Waiting(c.h) != []
    ensures var c' := Next(c, Pump(true, received, flushedAfter, true), maxBody);
            && c'.alive && c'.phase == DISPATCHING
            && c'.handed == c.handed + [Waiting(c.h)[0]] && Waiting(c'.h) == Waiting(c.h)[1..]
            && c'.h.current == Some(Waiting(c.h)[0])
  {
    hide Complete, WellFormed, Consistent;
  }

  /** No event brings bytes. */
  predicate NoBytes(events: seq<Event>) {
    forall i :: 0 <= i < |events| ==> events[i].Pump? ==> !events[i].received.Bytes?
  }

  /** Bytes that lie in the buffer are looked at only when more arrive: until then nothing of
      them is taken, not even whole requests that came together with the preface. */
  lemma {:induction false} LeftoverWaits(c: Conn, events: seq<Event>, maxBody: nat)
    requires NoBytes(events) && c.phase == IDLE && Waiting(c.h) == []
    ensures var c' := Run(c, events, maxBody);
            c'.rx == c.rx && c'.handed == c.handed && c'.h.accepted == c.h.accepted
    decreases |events|
  {
    if events != [] {
      var e := events[0];
      assert e.Pump? ==> !e.received.Bytes?;
      LeftoverWaits(Next(c, e, maxBody), events[1..], maxBody);
    }
  }
}
