/** One HTTP/2 entry of the connection table: the receive step and the end of a request
    (src/fastapi_mojo_rs/src/bridge/http2_io.rs and io.rs). */
module Http2Io {
  import opened Wrappers
  import opened Bits
  import opened Hpack
  import opened Http2Frames
  import opened Http2Requests
  import opened Http2Spec
  import opened Http2
  import opened Http2Lifecycle

  class ServerConn {
    var alive: bool
    /** The step ended the program. */
    var aborted: bool
    var phase: nat
    var body: seq<byte>
    var bodyGot: nat
    const h2: H2Connection
    /** The requests handed to the application, oldest first. */
    ghost var handed: seq<Request>
    /** The control frames taken from the queue for sending. */
    ghost var sent: seq<seq<byte>>

    ghost function View(): Conn
      reads this, h2, h2.decoder
    {
      Conn(alive, aborted, phase, h2.Core(), h2.rx, handed, sent)
    }

    /** While a request is dispatched its body lies in the buffer, followed by a zero byte. */
    ghost predicate Valid(maxBody: nat)
      reads this, h2, h2.decoder
    {
      && h2.Valid() && Sound(View(), maxBody)
      && (alive && phase == DISPATCHING ==>
            && body == h2.current.value.body + [0]
            && bodyGot == |h2.current.value.body|)
    }

    /** Switches to HTTP/2 with the bytes that followed the preface. */
    constructor (rx: seq<byte>, ghost maxBody: nat)
      ensures Valid(maxBody) && View() == NewConn(rx)
      ensures fresh(h2) && fresh(h2.decoder)
    {
      alive, aborted, phase, body, bodyGot, handed, sent := true, false, IDLE, [], 0, [], [];
      h2 := new H2Connection(rx);
    }

    /** Sends the queued control frames; a failed send closes the connection. */
    method SendControlFrames(ok: bool)
      requires h2.Valid()
      modifies this`alive, this`sent, h2
      ensures h2.Valid()
      ensures View() == Flush(old(View())).(alive := old(alive) && ok)
    {
      var frames := h2.TakeFrames();
      sent := sent + frames;
      if !ok {
        alive := false;
      }
    }

    /** Puts a request just taken in front of the application. */
    method ApplyRequest(request: Request, textOk: bool) returns (r: int)
      requires h2.Valid() && request.streamId < 0x8000_0000 && h2.frames == [] && alive
      modifies this, h2
      ensures h2.Valid()
      ensures View() == if textOk then old(View()).(phase := DISPATCHING, handed := old(handed) + [request])
                        else Flush(old(View()).(h := Reset(old(h2.Core()), request.streamId), alive := false))
      ensures r == if textOk then 1 else -1
      ensures textOk ==> body == request.body + [0] && bodyGot == |request.body|
    {
      hide FrameBytes, Be32;
      if !textOk {
        h2.EnqueueRstStream(request.streamId, INTERNAL_RESET);
        SendControlFrames(true);
        alive := false;
        return -1;
      }
      body := request.body + [0];
      bodyGot := |request.body|;
      phase := DISPATCHING;
      handed := handed + [request];
      return 1;
    }

    /** Takes the oldest waiting request, if any, and dispatches it. */
    method DispatchReady(textOk: bool, ghost maxBody: nat) returns (r: int)
      requires Valid(maxBody) && alive && phase == IDLE && h2.frames == []
      modifies this, h2
      ensures Valid(maxBody)
      ensures View() == if Waiting(old(h2.Core())) == [] then old(View()) else Dispatch(old(View()), textOk)
      ensures r == 1 <==> phase == DISPATCHING && alive
    {
      hide Consistent;
      ghost var before := View();
      var request := h2.TakeReady();
      if request.None? {
        return 0;
      }
      WaitingIsOld(before, maxBody);
      DispatchKeeps(before, textOk, maxBody);
      r := ApplyRequest(request.value, textOk);
    }

    /** One receive step.  Whether the sends succeed, what is received and whether the body
        is acceptable text come from outside. */
    method Pump(flushed: bool, received: Received, flushedAfter: bool, textOk: bool, maxBody: nat) returns (r: int)
      requires Valid(maxBody) && alive
      modifies this, h2, h2.decoder
      ensures Valid(maxBody)
      ensures View() == Next(old(View()), Event.Pump(flushed, received, flushedAfter, textOk), maxBody)
      ensures r == 1 <==> old(phase) != DISPATCHING && phase == DISPATCHING && alive
    {
      hide Consistent, Waiting, Dispatch, Http2Spec.Feed, AfterFeed;
      if phase == DISPATCHING {
        return 0;
      }
      FlushKeeps(View(), maxBody);
      SendControlFrames(flushed);
      if !alive {
        return -1;
      }
      var waiting := h2.HasReady();
      if waiting {
        r := DispatchReady(textOk, maxBody);
        return;
      }
      match received
      case Eof =>
        alive := false;
        return -1;
      case Again => return 0;
      case Failed =>
        alive, aborted := false, true;
        return -1;
      case Bytes(bytes) => r := Receive(bytes, flushedAfter, textOk, maxBody);
    }

    /** Feeds what was received.  After an error the connection stays in the table. */
    method Receive(bytes: seq<byte>, flushedAfter: bool, textOk: bool, maxBody: nat) returns (r: int)
      requires Valid(maxBody) && alive && phase == IDLE && h2.frames == []
      modifies this, h2, h2.decoder
      ensures Valid(maxBody)
      ensures View() == AfterFeed(old(View()), Http2Spec.Feed(old(h2.Core()), old(h2.rx), bytes, maxBody), flushedAfter,
              textOk)
      ensures r == 1 <==> phase == DISPATCHING && alive
    {
      hide Consistent, Waiting, Dispatch, Http2Spec.Feed, FrameBytes, Be32;
      FeedKeeps(View(), bytes, maxBody);
      var error := h2.Feed(bytes, maxBody);
      FlushKeeps(View(), maxBody);
      if error.Some? {
        h2.EnqueueGoaway(INTERNAL_GOAWAY);
        SendControlFrames(flushedAfter);
        return -1;
      }
      SendControlFrames(flushedAfter);
      if !alive {
        return -1;
      }
      r := DispatchReady(textOk, maxBody);
    }

    /** The application has answered; the transport stays open for the next request. */
    method ConnDone(ghost maxBody: nat)
      requires Valid(maxBody) && alive
      modifies this, h2
      ensures Valid(maxBody)
      ensures View() == Next(old(View()), Done, maxBody)
    {
      hide FrameBytes, Be32;
      StepKeeps(View(), Done, maxBody);
      if phase == DISPATCHING {
        h2.FinishCurrent();
        phase := IDLE;
      }
      body, bodyGot := [], 0;
    }
  }

  lemma WaitingIsOld(c: Conn, maxBody: nat)
    requires Sound(c, maxBody) && c.alive && Waiting(c.h) != []
    ensures Waiting(c.h)[0].streamId <= c.h.lastStreamId
  {
    hide Complete;
    assert c.h.accepted[|c.handed|] == Waiting(c.h)[0];
  }
}
