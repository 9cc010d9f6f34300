/** A client's session over a whole run of the server: every request is handed over, however
    its bytes are received (src/fmtool/src/http2.rs, src/fastapi_mojo_rs/src/bridge/http2_io.rs,
    io.rs). */
module Http2Delivery {
  import opened Wrappers
  import opened Bits
  import opened Http2Frames
  import opened Http2Requests
  import opened Http2Spec
  import opened Http2Lifecycle
  import opened Http2Client
  import opened Http2Sessions

  // ---------- runs in which nothing breaks ----------

  /** The application finishes a request, or a pump with nothing but luck: both flushes
      succeed, the socket has some bytes or none, and the body is acceptable. */
  predicate Smooth(e: Event) {
    match e
    case Done => true
    case Pump(flushed, received, flushedAfter, textOk) =>
      flushed && flushedAfter && textOk && (received.Again? || received.Bytes?)
    case Close => false
  }

  /** The event reads from the socket: nothing is dispatched and nothing waits. */
  ghost predicate Reads(c: Conn, e: Event) {
    c.alive && c.phase != DISPATCHING && Waiting(c.h) == [] && e.Pump? && e.flushed && e.received.Bytes?
  }

  ghost function BytesRead(c: Conn, e: Event): seq<byte> {
    if Reads(c, e) then e.received.bytes else []
  }

  ghost function AllRead(c: Conn, events: seq<Event>, maxBody: nat): seq<byte>
    decreases |events|
  {
    if events == [] then []
    else BytesRead(c, events[0]) + AllRead(Next(c, events[0], maxBody), events[1..], maxBody)
  }

  ghost predicate FeedSucceeds(c: Conn, e: Event, maxBody: nat) {
    Reads(c, e) ==> Feed(Flushed(c.h), c.rx, e.received.bytes, maxBody).error.None?
  }

  /** Every event is smooth, and nothing read is refused. */
  ghost predicate SmoothRun(c: Conn, events: seq<Event>, maxBody: nat)
    decreases |events|
  {
    events == []
    || (Smooth(events[0]) && FeedSucceeds(c, events[0], maxBody)
        && SmoothRun(Next(c, events[0], maxBody), events[1..], maxBody))
  }

  // ---------- a connection in the middle of a session ----------

  /** The connection is at this spot, `unread` is what the client has still to deliver, and the
      accepted requests and those to come are all of them.  Once something was read, having
      read everything means having accepted everything. */
  ghost predicate InSession(c: Conn, spot: Spot, sent: seq<Sent>, unread: seq<byte>, all: seq<Request>, begun: bool,
                            maxBody: nat) {
    && Sound(c, maxBody) && c.alive
    && At(c.h, spot, sent, maxBody) && AllAdmissible(sent, maxBody) && (spot == Between || Fits(spot, sent))
    && c.rx + unread == Remaining(spot, sent, maxBody)
    && c.h.accepted + AllReceived(sent) == all
    && (begun && unread == [] ==> sent == [])
  }

  /** What waits and what is dispatched may change. */
  lemma SameSpot(c: Conn, c': Conn, spot: Spot, sent: seq<Sent>, unread: seq<byte>, all: seq<Request>, begun: bool,
                 maxBody: nat)
    requires InSession(c, spot, sent, unread, all, begun, maxBody) && Sound(c', maxBody) && c'.alive && c'.rx == c.rx
    requires c'.h == c.h.(ready := c'.h.ready, pending := c'.h.pending, current := c'.h.current, frames := c'.h.frames)
    ensures InSession(c', spot, sent, unread, all, begun, maxBody)
  {
    hide Sound, Remaining, Ordered, Admissible, Http2Client.Received;
  }

  /** A reading pump leaves what draining left, but for the queues. */
  lemma NextIs(c: Conn, e: Event, maxBody: nat)
    requires Smooth(e) && Reads(c, e) && FeedSucceeds(c, e, maxBody)
    ensures var d, c' := Drain(Flushed(c.h), c.rx + e.received.bytes, maxBody), Next(c, e, maxBody);
            && d.error.None? && c'.alive && c'.rx == d.rx && c'.h.accepted == d.h.accepted
            && c'.h == d.h.(ready := c'.h.ready, pending := c'.h.pending, current := c'.h.current,
                frames := c'.h.frames)
  {
    hide Drain;
    assert Waiting(Flushed(c.h)) == Waiting(c.h);
  }

  lemma ReadStep(c: Conn, e: Event, spot: Spot, sent: seq<Sent>, unread: seq<byte>, all: seq<Request>, begun: bool,
                 maxBody: nat)
      returns (spot': Spot, sent': seq<Sent>)
    requires InSession(c, spot, sent, unread, all, begun, maxBody) && Smooth(e) && Reads(c, e)
    requires FeedSucceeds(c, e, maxBody) && e.received.bytes <= unread
    ensures InSession(Next(c, e, maxBody), spot', sent', unread[|e.received.bytes|..], all, true, maxBody)
  {
    hide Sound, Remaining, At, Admissible, Drain, Next, FeedSucceeds, Waiting;
    var b := e.received.bytes;
    var h := Flushed(c.h);
    var a, left := c.rx + b, unread[|b|..];
    assert a + left == Remaining(spot, sent, maxBody);
    FlushKeeps(c, maxBody);
    var c0 := Flush(c);
    SameSpot(c, c0, spot, sent, unread, all, begun, maxBody);
    TidyWhenIdle(c0, maxBody);
    NextIs(c, e, maxBody);
    var done;
    spot', done := DrainPrefix(h, spot, sent, a, maxBody);
    sent' := sent[done..];
    StepKeeps(c, e, maxBody);
    Accounted(h, sent, left, Drain(h, a, maxBody), spot', done, all, maxBody);
    AfterReading(Drain(h, a, maxBody).h, Next(c, e, maxBody).h, spot', sent', maxBody);
  }

  lemma Accounted(h: H2, sent: seq<Sent>, left: seq<byte>, d: Drained, spot: Spot, done: nat, all: seq<Request>,
                  maxBody: nat)
    requires Reaches(h, sent, left, d, spot, done, maxBody) && h.accepted + AllReceived(sent) == all
    ensures done <= |sent| && d.h.accepted + AllReceived(sent[done..]) == all
    ensures At(d.h, spot, sent[done..], maxBody) && AllAdmissible(sent[done..], maxBody)
    ensures spot == Between || Fits(spot, sent[done..])
    ensures d.rx + left == Remaining(spot, sent[done..], maxBody)
  {
    hide Remaining, At, Reaches, AllReceived, AllAdmissible;
    ReachesMeans(h, sent, left, d, spot, done, maxBody);
    AfterReading(d.h, d.h, spot, sent[done..], maxBody);
    var a, b := AllReceived(sent[..done]), AllReceived(sent[done..]);
    ReceivedConcat(sent[..done], sent[done..]);
    assert sent[..done] + sent[done..] == sent;
    assert h.accepted + a + b == h.accepted + (a + b);
  }

  lemma ReachesMeans(h: H2, sent: seq<Sent>, left: seq<byte>, d: Drained, spot: Spot, done: nat, maxBody: nat)
    requires Reaches(h, sent, left, d, spot, done, maxBody)
    ensures done <= |sent| && d.h.accepted == h.accepted + AllReceived(sent[..done])
    ensures At(d.h, spot, sent[done..], maxBody) && AllAdmissible(sent[done..], maxBody)
    ensures d.rx + left == Remaining(spot, sent[done..], maxBody)
  {
    hide Remaining, At, AllReceived, AllAdmissible, Waiting;
  }

  lemma AfterReading(h: H2, h': H2, spot: Spot, sent: seq<Sent>, maxBody: nat)
    requires At(h, spot, sent, maxBody)
    ensures spot == Between || Fits(spot, sent)
    ensures h' == h.(ready := h'.ready, pending := h'.pending, current := h'.current, frames := h'.frames)
            ==> At(h', spot, sent, maxBody)
  {
    hide Ordered, Admissible, Http2Client.Received;
  }

  lemma TidyWhenIdle(c: Conn, maxBody: nat)
    requires Sound(c, maxBody) && c.alive && c.phase != DISPATCHING
    ensures Tidy(c.h) && c.phase == IDLE
  {
    hide Consistent;
  }

  lemma {:induction false} ReceivedConcat(a: seq<Sent>, b: seq<Sent>)
    ensures AllReceived(a + b) == AllReceived(a) + AllReceived(b)
  {
    hide Http2Client.Received;
    if a == [] {
      assert a + b == b;
    } else {
      assert (a + b)[1..] == a[1..] + b;
      ReceivedConcat(a[1..], b);
    }
  }

  /** Any other smooth event only moves requests along. */
  lemma OtherStep(c: Conn, e: Event, spot: Spot, sent: seq<Sent>, unread: seq<byte>, all: seq<Request>, begun: bool,
                  maxBody: nat)
    requires InSession(c, spot, sent, unread, all, begun, maxBody) && Smooth(e) && !Reads(c, e)
    ensures InSession(Next(c, e, maxBody), spot, sent, unread, all, begun, maxBody)
  {
    hide Sound, InSession, Feed;
    SoundSession(c, spot, sent, unread, all, begun, maxBody);
    StepKeeps(c, e, maxBody);
    SameSpot(c, Next(c, e, maxBody), spot, sent, unread, all, begun, maxBody);
  }

  lemma SoundSession(c: Conn, spot: Spot, sent: seq<Sent>, unread: seq<byte>, all: seq<Request>, begun: bool,
                     maxBody: nat)
    requires InSession(c, spot, sent, unread, all, begun, maxBody)
    ensures Sound(c, maxBody) && c.alive && c.h.accepted <= all
    ensures unread == [] && begun ==> c.h.accepted == all
  {
    hide Sound, At, Remaining, Http2Client.Received;
    assert c.h.accepted + [] == c.h.accepted;
  }

  /** Over a whole smooth run that reads no more than the session. */
  lemma {:induction false} RunStays(c: Conn, events: seq<Event>, spot: Spot, sent: seq<Sent>, unread: seq<byte>,
                                    all: seq<Request>, begun: bool, maxBody: nat)
      returns (spot': Spot, sent': seq<Sent>, begun': bool)
    requires InSession(c, spot, sent, unread, all, begun, maxBody) && SmoothRun(c, events, maxBody)
    requires AllRead(c, events, maxBody) <= unread
    ensures InSession(Run(c, events, maxBody), spot', sent', unread[|AllRead(c, events, maxBody)|..], all, begun',
            maxBody)
    ensures begun || AllRead(c, events, maxBody) != [] ==> begun'
    decreases |events|
  {
    hide InSession, Next, Smooth, FeedSucceeds, Reads;
    if events == [] {
      spot', sent', begun' := spot, sent, begun;
      assert unread[0..] == unread;
    } else {
      var e := events[0];
      var c', b := Next(c, e, maxBody), BytesRead(c, e);
      var more := AllRead(c', events[1..], maxBody);
      assert b + more <= unread && b <= unread && more <= unread[|b|..];
      assert unread[|b|..][|more|..] == unread[|b + more|..];
      var spot1, sent1 := spot, sent;
      if Reads(c, e) {
        ReadsBytes(c, e);
        spot1, sent1 := ReadStep(c, e, spot, sent, unread, all, begun, maxBody);
      } else {
        OtherStep(c, e, spot, sent, unread, all, begun, maxBody);
        assert unread[0..] == unread;
      }
      var begun1 := begun || Reads(c, e);
      spot', sent', begun' := RunStays(c', events[1..], spot1, sent1, unread[|b|..], all, begun1, maxBody);
    }
  }

  lemma ReadsBytes(c: Conn, e: Event)
    requires Reads(c, e)
    ensures e.Pump? && e.received.Bytes? && BytesRead(c, e) == e.received.bytes
  {
  }

  // ---------- every session is delivered ----------

  /** What a client sends on a connection. */
  function Whole(sent: seq<Sent>, maxBody: nat): seq<byte>
    requires Ordered(sent, 0, maxBody)
  {
    FrameBytes(SETTINGS, 0, 0, []) + SessionBytes(sent, 0, maxBody)
  }

  lemma NewInSession(rx: seq<byte>, unread: seq<byte>, sent: seq<Sent>, maxBody: nat)
    requires Ordered(sent, 0, maxBody) && rx + unread == Whole(sent, maxBody)
    ensures InSession(NewConn(rx), Opening, sent, unread, AllReceived(sent), false, maxBody)
  {
    hide Ordered, Admissible, SessionBytes, Remaining, FrameBytes, AllReceived, SettingsPayload;
    OrderedAdmissible(sent, 0, maxBody);
    RemainingIsSession(sent, 0, maxBody);
    RemainingStep(Opening, sent, maxBody);
    assert FrameOnWire(Frame(SETTINGS, 0, 0, [])) == FrameBytes(SETTINGS, 0, 0, []);
    assert [] + AllReceived(sent) == AllReceived(sent);
    assert Run(NewConn(rx), [], maxBody) == NewConn(rx);
    NewIsSound(rx, maxBody);
  }

  lemma NewIsSound(rx: seq<byte>, maxBody: nat)
    ensures Sound(NewConn(rx), maxBody)
  {
  }

  /** Whatever pieces a session is received in, and however the application takes its time: as
      long as nothing is refused, the connection lives, the requests accepted are a first part
      of those sent, and once everything was read they are all handed over or waiting, in
      order.  There is no limit on their number. */
  lemma SessionIsAccepted(rx: seq<byte>, events: seq<Event>, sent: seq<Sent>, maxBody: nat)
    requires Ordered(sent, 0, maxBody) && SmoothRun(NewConn(rx), events, maxBody)
    requires rx + AllRead(NewConn(rx), events, maxBody) <= Whole(sent, maxBody)
    ensures var c, read := Run(NewConn(rx), events, maxBody), AllRead(NewConn(rx), events, maxBody);
            && c.alive && c.h.accepted <= AllReceived(sent)
            && (read != [] && rx + read == Whole(sent, maxBody) ==> c.handed + Waiting(c.h) == AllReceived(sent))
  {
    hide InSession, Ordered, Whole, AllReceived, SmoothRun, AllRead, Run, Waiting, Sound, FrameBytes;
    var read := AllRead(NewConn(rx), events, maxBody);
    var unread := Whole(sent, maxBody)[|rx|..];
    assert rx + unread == Whole(sent, maxBody);
    NewInSession(rx, unread, sent, maxBody);
    var spot, left, begun := RunStays(NewConn(rx), events, Opening, sent, unread, AllReceived(sent), false, maxBody);
    SoundSession(Run(NewConn(rx), events, maxBody), spot, left, unread[|read|..], AllReceived(sent), begun, maxBody);
    AliveAccounts(Run(NewConn(rx), events, maxBody), maxBody);
  }

  lemma AliveAccounts(c: Conn, maxBody: nat)
    requires Sound(c, maxBody) && c.alive
    ensures c.handed + Waiting(c.h) == c.h.accepted
  {
    hide Consistent, Waiting;
  }

  /** The application finishes a request and the server looks for the next one, n times. */
  function Serve(n: nat): seq<Event> {
    if n == 0 then [] else [Done, Pump(true, Again, true, true)] + Serve(n - 1)
  }

  /** As many finish steps as requests wait hand them all over. */
  lemma {:induction false} ServeDelivers(c: Conn, n: nat, maxBody: nat)
    requires Sound(c, maxBody) && c.alive && |Waiting(c.h)| <= n
    ensures Run(c, Serve(n), maxBody).handed == c.handed + Waiting(c.h)
    decreases n
  {
    hide Sound, Waiting, Consistent;
    if n > 0 {
      var events := Serve(n);
      assert events[0] == Done && events[1..][0] == Pump(true, Again, true, true) && events[1..][1..] == Serve(n - 1);
      var c1 := Next(c, Done, maxBody);
      var c2 := Next(c1, Pump(true, Again, true, true), maxBody);
      OneServed(c, maxBody);
      ServeDelivers(c2, n - 1, maxBody);
      assert Run(c, events, maxBody) == Run(c1, events[1..], maxBody) == Run(c2, Serve(n - 1), maxBody);
    } else {
      assert c.handed + [] == c.handed;
    }
  }

  lemma OneServed(c: Conn, maxBody: nat)
    requires Sound(c, maxBody) && c.alive
    ensures var c' := Next(Next(c, Done, maxBody), Pump(true, Again, true, true), maxBody);
            && Sound(c', maxBody) && c'.alive
            && |Waiting(c'.h)| == (if Waiting(c.h) == [] then 0 else |Waiting(c.h)| - 1)
            && c'.handed + Waiting(c'.h) == c.handed + Waiting(c.h)
  {
    hide Consistent, Sound, Next, Waiting;
    var c1 := Next(c, Done, maxBody);
    StepKeeps(c, Done, maxBody);
    Idled(c, maxBody);
    StepKeeps(c1, Pump(true, Again, true, true), maxBody);
    if Waiting(c.h) != [] {
      NextPumpDelivers(c1, Again, true, maxBody);
      assert [Waiting(c.h)[0]] + Waiting(c.h)[1..] == Waiting(c.h);
    } else {
      NothingToPump(c1, maxBody);
    }
  }

  lemma Idled(c: Conn, maxBody: nat)
    requires Sound(c, maxBody) && c.alive
    ensures var c1 := Next(c, Done, maxBody);
            c1.alive && c1.phase == IDLE && Waiting(c1.h) == Waiting(c.h) && c1.handed == c.handed
  {
    hide Consistent;
  }

  lemma NothingToPump(c: Conn, maxBody: nat)
    requires c.alive && c.phase == IDLE && Waiting(c.h) == []
    ensures var c' := Next(c, Pump(true, Again, true, true), maxBody);
            c'.alive && Waiting(c'.h) == [] && c'.handed == c.handed
  {
  }

  /** With enough finish steps the application gets exactly what the client sent. */
  lemma SessionIsDelivered(rx: seq<byte>, events: seq<Event>, sent: seq<Sent>, maxBody: nat)
    requires Ordered(sent, 0, maxBody) && SmoothRun(NewConn(rx), events, maxBody)
    requires AllRead(NewConn(rx), events, maxBody) != []
    requires rx + AllRead(NewConn(rx), events, maxBody) == Whole(sent, maxBody)
    ensures var c := Run(NewConn(rx), events, maxBody);
            Run(c, Serve(|Waiting(c.h)|), maxBody).handed == AllReceived(sent)
  {
    hide Ordered, Whole, AllReceived, SmoothRun, AllRead, Run, Waiting, Sound, Serve;
    var c := Run(NewConn(rx), events, maxBody);
    SessionIsAccepted(rx, events, sent, maxBody);
    NewIsSound(rx, maxBody);
    RunKeeps(NewConn(rx), events, maxBody);
    ServeDelivers(c, |Waiting(c.h)|, maxBody);
  }

  /** Within a session the only thing that is refused is a piece that is too large for the
      buffer, or one in which more than 101 requests end. */
  lemma OnlyCrowdingFails(c: Conn, e: Event, spot: Spot, sent: seq<Sent>, unread: seq<byte>, all: seq<Request>,
                          begun: bool, maxBody: nat)
    requires InSession(c, spot, sent, unread, all, begun, maxBody) && Reads(c, e) && e.received.bytes <= unread
    requires |c.rx| + |e.received.bytes| <= 2097152 && !FeedSucceeds(c, e, maxBody)
    ensures var d := Feed(Flushed(c.h), c.rx, e.received.bytes, maxBody);
            d.error == Some(TooManyStreams) && |Waiting(d.h)| > 100 && |sent| > 101
  {
    hide Sound, Remaining, At, Admissible, Drain, Waiting;
    var a, left := c.rx + e.received.bytes, unread[|e.received.bytes|..];
    assert a + left == Remaining(spot, sent, maxBody);
    FlushKeeps(c, maxBody);
    SameSpot(c, Flush(c), spot, sent, unread, all, begun, maxBody);
    TidyWhenIdle(Flush(c), maxBody);
    assert Waiting(Flushed(c.h)) == [] by { FlushedWaits(c.h); }
    var spot', done := DrainPrefix(Flushed(c.h), spot, sent, a, maxBody);
  }

  lemma FlushedWaits(h: H2)
    ensures Waiting(Flushed(h)) == Waiting(h)
  {
  }

  // ---------- a session that came with the preface ----------

  const LOOK: Event := Pump(true, Again, true, true)

  /** The first request is handed over, or waits on an idle connection to be the first. */
  ghost predicate FirstIs(c: Conn, r: Request, maxBody: nat) {
    && Sound(c, maxBody)
    && if c.handed != [] then c.handed[0] == r
       else c.alive && c.phase == IDLE && Waiting(c.h) != [] && Waiting(c.h)[0] == r
  }

  lemma FirstStays(c: Conn, r: Request, e: Event, maxBody: nat)
    requires FirstIs(c, r, maxBody) && Smooth(e)
    ensures FirstIs(Next(c, e, maxBody), r, maxBody) && (e.Pump? ==> Next(c, e, maxBody).handed != [])
  {
    hide Consistent, Feed;
    StepKeeps(c, e, maxBody);
    StepAppends(c, e, maxBody);
  }

  lemma {:induction false} FirstIsHanded(c: Conn, r: Request, events: seq<Event>, maxBody: nat)
    requires FirstIs(c, r, maxBody) && forall i :: 0 <= i < |events| ==> Smooth(events[i])
    ensures var c' := Run(c, events + [LOOK], maxBody); c'.handed != [] && c'.handed[0] == r
    decreases |events|
  {
    hide FirstIs, Smooth, Next;
    var all := events + [LOOK];
    if events == [] {
      LookIsSmooth();
      FirstStays(c, r, LOOK, maxBody);
      FirstMeans(Next(c, LOOK, maxBody), r, maxBody);
      assert all == [LOOK] && Run(c, all, maxBody) == Run(Next(c, LOOK, maxBody), [], maxBody);
    } else {
      FirstStays(c, r, events[0], maxBody);
      FirstIsHanded(Next(c, events[0], maxBody), r, events[1..], maxBody);
      assert all[1..] == events[1..] + [LOOK];
    }
  }

  lemma LookIsSmooth()
    ensures Smooth(LOOK) && LOOK.Pump? && LOOK.received == Again && LOOK.flushed
  {
  }

  lemma FirstMeans(c: Conn, r: Request, maxBody: nat)
    requires FirstIs(c, r, maxBody)
    ensures c.handed != [] ==> c.handed[0] == r
  {
    hide Sound;
  }

  /** Nothing of the session was looked at yet. */
  ghost predicate Untouched(c: Conn, sent: seq<Sent>, maxBody: nat) {
    && InSession(c, Opening, sent, [], AllReceived(sent), false, maxBody)
    && c.phase == IDLE && Waiting(c.h) == [] && c.handed == []
  }

  lemma StaysUntouched(c: Conn, e: Event, sent: seq<Sent>, maxBody: nat)
    requires Untouched(c, sent, maxBody) && Smooth(e) && (e.Pump? ==> e.received.Again?)
    ensures Untouched(Next(c, e, maxBody), sent, maxBody) && Next(c, e, maxBody).rx == c.rx
  {
    hide InSession, Feed;
    SoundSession(c, Opening, sent, [], AllReceived(sent), false, maxBody);
    hide Sound;
    OtherStep(c, e, Opening, sent, [], AllReceived(sent), false, maxBody);
    FlushedWaits(c.h);
  }

  /** A pump with bytes, whatever they are, takes the whole session that lay in the buffer. */
  lemma TouchedBy(c: Conn, e: Event, sent: seq<Sent>, maxBody: nat)
    requires Untouched(c, sent, maxBody) && sent != [] && |sent| <= 101
    requires Smooth(e) && e.Pump? && e.received.Bytes? && |c.rx| + |e.received.bytes| <= 2097152
    ensures FirstIs(Next(c, e, maxBody), Http2Client.Received(sent[0].request), maxBody)
  {
    hide InSession, Drain, At, Remaining, Reaches, Http2Client.Received, AllAdmissible, OnlyQueues;
    SoundSession(c, Opening, sent, [], AllReceived(sent), false, maxBody);
    StepKeeps(c, e, maxBody);
    var h, b := Flushed(c.h), e.received.bytes;
    LeftoverDrained(c, sent, maxBody);
    var d1 := Drain(h, c.rx, maxBody);
    FlushKeeps(c, maxBody);
    DrainSplit(h, c.rx, b, maxBody);
    var d2 := Drain(d1.h, d1.rx + b, maxBody);
    FlushedSound(c, maxBody);
    DrainKeeps(h, c.rx, maxBody);
    QueuesHaveNoGap(h, d1.h);
    DrainKeeps(d1.h, d1.rx + b, maxBody);
    FrontStays(d1.h, d2.h);
    assert AllReceived(sent)[0] == Http2Client.Received(sent[0].request);
    AfterTouch(c, e, Http2Client.Received(sent[0].request), maxBody);
  }

  lemma FlushedSound(c: Conn, maxBody: nat)
    requires Sound(c, maxBody) && c.alive && c.phase == IDLE
    ensures Consistent(Flushed(c.h), maxBody) && (Flushed(c.h).ready.None? ==> Flushed(c.h).pending == [])
  {
    hide Complete, WellFormed;
  }

  lemma FrontStays(h: H2, h': H2)
    requires OnlyQueues(h, h') && Waiting(h) != []
    ensures Waiting(h') != [] && Waiting(h')[0] == Waiting(h)[0]
  {
    hide Waiting;
  }

  lemma LeftoverDrained(c: Conn, sent: seq<Sent>, maxBody: nat)
    requires Untouched(c, sent, maxBody) && |sent| <= 101
    ensures var d := Drain(Flushed(c.h), c.rx, maxBody); d.error.None? && Waiting(d.h) == AllReceived(sent)
  {
    hide Sound, Drain, At, Remaining, Http2Client.Received, Admissible, Waiting;
    SoundSession(c, Opening, sent, [], AllReceived(sent), false, maxBody);
    FlushKeeps(c, maxBody);
    SameSpot(c, Flush(c), Opening, sent, [], AllReceived(sent), false, maxBody);
    TidyWhenIdle(Flush(c), maxBody);
    FlushedWaits(c.h);
    assert c.rx + [] == c.rx;
    var spot', done := DrainPrefix(Flushed(c.h), Opening, sent, c.rx, maxBody);
    assert sent[..|sent|] == sent && [] + AllReceived(sent) == AllReceived(sent);
  }

  lemma AfterTouch(c: Conn, e: Event, r: Request, maxBody: nat)
    requires c.alive && c.phase == IDLE && Waiting(c.h) == [] && c.handed == []
    requires Smooth(e) && e.Pump? && e.received.Bytes? && Sound(Next(c, e, maxBody), maxBody)
    requires var d := Feed(Flushed(c.h), c.rx, e.received.bytes, maxBody); Waiting(d.h) != [] && Waiting(d.h)[0] == r
    ensures FirstIs(Next(c, e, maxBody), r, maxBody)
  {
    hide Feed, Sound;
    FlushedWaits(c.h);
    FlushedWaits(Feed(Flushed(c.h), c.rx, e.received.bytes, maxBody).h);
  }

  lemma {:induction false} UntouchedRun(c: Conn, events: seq<Event>, sent: seq<Sent>, maxBody: nat)
    requires Untouched(c, sent, maxBody) && sent != [] && |sent| <= 101
    requires forall i :: 0 <= i < |events| ==> Smooth(events[i])
    requires forall i :: 0 <= i < |events| ==>
               events[i].Pump? && events[i].received.Bytes? ==> |c.rx| + |events[i].received.bytes| <= 2097152
    ensures var c' := Run(c, events + [LOOK], maxBody);
            && (c'.handed == [] <==> NoBytes(events))
            && (c'.handed != [] ==> c'.handed[0] == Http2Client.Received(sent[0].request))
    decreases |events|
  {
    hide Untouched, Next, FirstIs, Smooth;
    var all := events + [LOOK];
    if events == [] {
      LookIsSmooth();
      StaysUntouched(c, LOOK, sent, maxBody);
      NothingHanded(Next(c, LOOK, maxBody), sent, maxBody);
      assert all == [LOOK] && Run(c, all, maxBody) == Run(Next(c, LOOK, maxBody), [], maxBody);
    } else {
      var e := events[0];
      assert all[1..] == events[1..] + [LOOK];
      SmoothKinds(e);
      if e.Pump? && e.received.Bytes? {
        TouchedBy(c, e, sent, maxBody);
        FirstIsHanded(Next(c, e, maxBody), Http2Client.Received(sent[0].request), events[1..], maxBody);
        assert !NoBytes(events);
      } else {
        StaysUntouched(c, e, sent, maxBody);
        UntouchedRun(Next(c, e, maxBody), events[1..], sent, maxBody);
        NoBytesTail(events);
      }
    }
  }

  lemma NoBytesTail(events: seq<Event>)
    requires events != [] && (events[0].Pump? ==> !events[0].received.Bytes?)
    ensures NoBytes(events) <==> NoBytes(events[1..])
  {
  }

  lemma SmoothKinds(e: Event)
    requires Smooth(e)
    ensures e.Pump? ==> e.received.Bytes? || e.received.Again?
  {
  }

  lemma NothingHanded(c: Conn, sent: seq<Sent>, maxBody: nat)
    requires Untouched(c, sent, maxBody)
    ensures c.handed == []
  {
    hide InSession;
  }

  /** A whole session that came together with the preface: over any smooth run and one more
      look, its first request is handed over if and only if some pump brings bytes, be they
      what they may.  Until then it waits in the buffer, complete as it is. */
  lemma LeftoverTakenIff(rx: seq<byte>, events: seq<Event>, sent: seq<Sent>, maxBody: nat)
    requires Ordered(sent, 0, maxBody) && rx == Whole(sent, maxBody) && sent != [] && |sent| <= 101
    requires forall i :: 0 <= i < |events| ==> Smooth(events[i])
    requires forall i :: 0 <= i < |events| ==>
               events[i].Pump? && events[i].received.Bytes? ==> |rx| + |events[i].received.bytes| <= 2097152
    ensures Waiting(Drain(NewH2(), rx, maxBody).h) == AllReceived(sent)
    ensures var c := Run(NewConn(rx), events + [LOOK], maxBody);
            && (c.handed == [] <==> NoBytes(events))
            && (c.handed != [] ==> c.handed[0] == Http2Client.Received(sent[0].request))
  {
    hide InSession, Ordered, Whole, AllReceived, Run, Sound, Drain, Smooth, NoBytes, SettingsPayload, FrameBytes;
    assert rx + [] == rx;
    NewInSession(rx, [], sent, maxBody);
    assert Untouched(NewConn(rx), sent, maxBody);
    UntouchedRun(NewConn(rx), events, sent, maxBody);
    FreshDrained(rx, sent, maxBody);
  }

  lemma {:induction false} FreshDrained(rx: seq<byte>, sent: seq<Sent>, maxBody: nat)
    requires InSession(NewConn(rx), Opening, sent, [], AllReceived(sent), false, maxBody)
    requires |sent| <= 101
    ensures Waiting(Drain(NewH2(), rx, maxBody).h) == AllReceived(sent)
  {
    hide Sound, Drain, At, Remaining, Http2Client.Received, Admissible, SettingsPayload, FrameBytes;
    assert rx + [] == rx;
    var spot', done := DrainPrefix(NewH2(), Opening, sent, rx, maxBody);
    assert sent[..|sent|] == sent && [] + AllReceived(sent) == AllReceived(sent);
  }
}
