/** A client's session as it meets the server step by step: received in any pieces, dispatched
    one request at a time (src/fmtool/src/http2.rs, src/fastapi_mojo_rs/src/bridge/http2.rs,
    http2_io.rs). */
module Http2Sessions {
  import opened Wrappers
  import opened Bits
  import opened Http2Frames
  import opened Http2Requests
  import opened Http2Spec
  import opened Http2Lifecycle
  import opened Http2Client

  // ---------- where in a session a connection is ----------

  /** Before the client's settings, between two requests, after the first half of a cut header
      block, and before the body. */
  datatype Spot = Opening | Between | CutHead | HeadDone

  function Rank(spot: Spot): nat {
    match spot case Opening => 3 case Between => 2 case CutHead => 1 case HeadDone => 0
  }

  predicate AllAdmissible(sent: seq<Sent>, maxBody: nat) {
    forall i :: 0 <= i < |sent| ==> Admissible(sent[i], maxBody)
  }

  /** Something is still to come, and it fits the requests that are left. */
  predicate Fits(spot: Spot, sent: seq<Sent>) {
    match spot
    case Opening => true
    case Between => sent != []
    case CutHead => sent != [] && sent[0].cut.Some?
    case HeadDone => sent != [] && sent[0].request.body.Some?
  }

  /** The frame that opens a request: its header block, or the first piece of it. */
  function HeadFrame(s: Sent, maxBody: nat): (f: Frame)
    requires Admissible(s, maxBody)
    ensures f.stream < 0x8000_0000
  {
    var c := s.request;
    if s.cut.None? then Frame(HEADERS, HeadFlags(true, c.body.None?), c.stream, HeaderBlock(c))
    else Frame(HEADERS, HeadFlags(false, c.body.None?), c.stream, HeaderBlock(c)[..s.cut.value])
  }

  function TailFrame(s: Sent, maxBody: nat): (f: Frame)
    requires Admissible(s, maxBody) && s.cut.Some?
    ensures f.stream < 0x8000_0000
  {
    Frame(CONTINUATION, END_HEADERS, s.request.stream, HeaderBlock(s.request)[s.cut.value..])
  }

  function DataFrame(s: Sent, maxBody: nat): (f: Frame)
    requires Admissible(s, maxBody) && s.request.body.Some?
    ensures f.stream < 0x8000_0000
  {
    Frame(DATA, END_STREAM, s.request.stream, s.request.body.value)
  }

  function NextFrame(spot: Spot, sent: seq<Sent>, maxBody: nat): (f: Frame)
    requires AllAdmissible(sent, maxBody) && Fits(spot, sent)
    ensures f.stream < 0x8000_0000
  {
    if spot == Opening then Frame(SETTINGS, 0, 0, [])
    else if spot == Between then HeadFrame(sent[0], maxBody)
    else if spot == CutHead then TailFrame(sent[0], maxBody)
    else DataFrame(sent[0], maxBody)
  }

  function FrameOnWire(f: Frame): seq<byte>
    requires f.stream < 0x8000_0000
  {
    FrameBytes(f.ty, f.flags, f.stream, f.payload)
  }

  /** The request ends with this frame. */
  predicate Completes(spot: Spot, sent: seq<Sent>)
    requires Fits(spot, sent)
  {
    match spot
    case Opening => false
    case Between => sent[0].cut.None? && sent[0].request.body.None?
    case CutHead => sent[0].request.body.None?
    case HeadDone => true
  }

  function NextSpot(spot: Spot, sent: seq<Sent>): (next: Spot)
    requires Fits(spot, sent)
    ensures !Completes(spot, sent) ==> Rank(next) < Rank(spot)
  {
    if spot == Opening || Completes(spot, sent) then Between
    else if spot == Between && sent[0].cut.Some? then CutHead
    else HeadDone
  }

  function NextSent(spot: Spot, sent: seq<Sent>): seq<Sent>
    requires Fits(spot, sent)
  {
    if Completes(spot, sent) then sent[1..] else sent
  }

  lemma NextFits(spot: Spot, sent: seq<Sent>)
    requires Fits(spot, sent)
    ensures NextSpot(spot, sent) == Between || Fits(NextSpot(spot, sent), NextSent(spot, sent))
  {
  }

  /** The bytes of the session from this spot on. */
  function Remaining(spot: Spot, sent: seq<Sent>, maxBody: nat): seq<byte>
    requires AllAdmissible(sent, maxBody) && (spot == Between || Fits(spot, sent))
    decreases |sent|, Rank(spot)
  {
    if !Fits(spot, sent) then []
    else
      var f := NextFrame(spot, sent, maxBody);
      NextFits(spot, sent);
      FrameOnWire(f) + Remaining(NextSpot(spot, sent), NextSent(spot, sent), maxBody)
  }

  lemma {:induction false} OrderedAdmissible(sent: seq<Sent>, last: nat, maxBody: nat)
    requires Ordered(sent, last, maxBody)
    ensures AllAdmissible(sent, maxBody)
    decreases |sent|
  {
    hide Admissible;
    if sent != [] {
      OrderedAdmissible(sent[1..], sent[0].request.stream, maxBody);
    }
  }

  /** The frames of a session are its bytes. */
  lemma {:induction false} RemainingIsSession(sent: seq<Sent>, last: nat, maxBody: nat)
    requires Ordered(sent, last, maxBody)
    ensures AllAdmissible(sent, maxBody)
    ensures Remaining(Between, sent, maxBody) == SessionBytes(sent, last, maxBody)
    decreases |sent|
  {
    hide Admissible, HeaderBlock, HeadFlags, FrameBytes, Wire, AllAdmissible;
    OrderedAdmissible(sent, last, maxBody);
    if sent != [] {
      var c, rest := sent[0].request, SessionBytes(sent[1..], sent[0].request.stream, maxBody);
      RemainingIsSession(sent[1..], c.stream, maxBody);
      OneRequest(sent, rest, maxBody);
    }
  }

  lemma RemainingStep(spot: Spot, sent: seq<Sent>, maxBody: nat)
    requires AllAdmissible(sent, maxBody) && Fits(spot, sent)
    ensures NextSpot(spot, sent) == Between || Fits(NextSpot(spot, sent), NextSent(spot, sent))
    ensures AllAdmissible(NextSent(spot, sent), maxBody)
    ensures Remaining(spot, sent, maxBody)
            == FrameOnWire(NextFrame(spot, sent, maxBody))
                + Remaining(NextSpot(spot, sent), NextSent(spot, sent), maxBody)
  {
    hide Admissible, FrameOnWire, NextFrame;
    NextFits(spot, sent);
  }

  lemma OneRequest(sent: seq<Sent>, rest: seq<byte>, maxBody: nat)
    requires sent != [] && AllAdmissible(sent, maxBody) && Remaining(Between, sent[1..], maxBody) == rest
    ensures sent[0].request.stream < 0x8000_0000
            && (sent[0].cut.Some? ==> sent[0].cut.value <= |HeaderBlock(sent[0].request)|)
    ensures Remaining(Between, sent, maxBody) == Wire(sent[0].request, sent[0].cut) + rest
  {
    hide Admissible, HeadFrame, TailFrame, DataFrame, FrameOnWire, Remaining, HeaderBlock, Wire;
    var s := sent[0];
    RequestBytes(s, maxBody);
    RemainingStep(Between, sent, maxBody);
    var head, data := FrameOnWire(HeadFrame(s, maxBody)),
        if s.request.body.Some? then FrameOnWire(DataFrame(s, maxBody)) else [];
    if s.cut.Some? {
      RemainingStep(CutHead, sent, maxBody);
    }
    if s.request.body.Some? {
      RemainingStep(HeadDone, sent, maxBody);
    }
    var tail := if s.cut.Some? then FrameOnWire(TailFrame(s, maxBody)) else [];
    assert Remaining(Between, sent, maxBody) == head + (tail + (data + rest));
    assert Wire(s.request, s.cut) == head + tail + data;
  }

  lemma RequestBytes(s: Sent, maxBody: nat)
    requires Admissible(s, maxBody)
    ensures s.request.stream < 0x8000_0000 && (s.cut.Some? ==> s.cut.value <= |HeaderBlock(s.request)|)
    ensures Wire(s.request, s.cut)
            == FrameOnWire(HeadFrame(s, maxBody)) + (if s.cut.Some? then FrameOnWire(TailFrame(s, maxBody)) else [])
               + if s.request.body.Some? then FrameOnWire(DataFrame(s, maxBody)) else []
  {
    hide HeaderBlock, HeadFlags, FrameBytes, CleanText, Target;
  }

  // ---------- one frame of a session ----------

  /** The connection is at this spot of the session.  Requests that wait or are dispatched do
      not matter. */
  predicate At(h: H2, spot: Spot, sent: seq<Sent>, maxBody: nat) {
    && DEFAULT_MAX_FRAME <= h.maxFrameSize && (spot == Between || Fits(spot, sent))
    && if spot == Opening || spot == Between then
         h.partialHeaders.None? && h.partialRequest.None? && Ordered(sent, h.lastStreamId, maxBody)
       else
         var s := sent[0];
         && Admissible(s, maxBody) && Ordered(sent[1..], s.request.stream, maxBody)
             && h.lastStreamId == s.request.stream
         && if spot == CutHead then
              && h.partialRequest.None?
              && h.partialHeaders == Some(HeaderPart(s.request.stream, HeaderBlock(s.request)[..s.cut.value],
                  s.request.body.None?))
            else
              h.partialHeaders.None? && h.partialRequest == Some(Http2Client.Received(s.request).(body := []))
  }

  /** A free ready slot has nothing pending behind it. */
  predicate Tidy(h: H2) {
    h.ready.None? ==> h.pending == []
  }

  /** The request, if one was completed, waits behind the others. */
  predicate Gained(h: H2, h': H2, gained: seq<Request>) {
    h'.accepted == h.accepted + gained && Waiting(h') == Waiting(h) + gained && Tidy(h')
  }

  /** What a frame of the session does: it goes on, or there was no room for its request. */
  predicate Steps(h: H2, o: Outcome, spot: Spot, sent: seq<Sent>, maxBody: nat)
    requires Fits(spot, sent)
  {
    if o.error.None? then
      && At(o.h, NextSpot(spot, sent), NextSent(spot, sent), maxBody)
      && Gained(h, o.h, if Completes(spot, sent) then [Http2Client.Received(sent[0].request)] else [])
    else
      && o.error == Some(TooManyStreams) && Completes(spot, sent)
      && |Waiting(h)| > MAX_PENDING_STREAMS && Waiting(o.h) == Waiting(h)
  }

  lemma Queues(h: H2, r: Request)
    requires Tidy(h)
    ensures var o := QueueRequest(h, r);
            if o.error.None? then
              && Gained(h, o.h, [r])
              && o.h.partialHeaders == h.partialHeaders && o.h.partialRequest == h.partialRequest
              && o.h.lastStreamId == h.lastStreamId && o.h.maxFrameSize == h.maxFrameSize
            else o.error == Some(TooManyStreams) && |Waiting(h)| > MAX_PENDING_STREAMS && o.h == h
  {
  }

  lemma Unchanged(h: H2, h': H2)
    requires Tidy(h) && h'.accepted == h.accepted && h'.ready == h.ready && h'.pending == h.pending
    ensures Gained(h, h', []) && Waiting(h') == Waiting(h)
  {
    assert h.accepted + [] == h.accepted && Waiting(h) + [] == Waiting(h);
  }

  lemma OpeningSteps(h: H2, sent: seq<Sent>, maxBody: nat)
    requires At(h, Opening, sent, maxBody) && Tidy(h)
    ensures Steps(h, HandleFrame(h, Frame(SETTINGS, 0, 0, []), maxBody), Opening, sent, maxBody)
  {
    hide Ordered, FrameBytes;
    var o := HandleFrame(h, Frame(SETTINGS, 0, 0, []), maxBody);
    assert ApplySettings(h, []) == Fine(h);
    Unchanged(h, o.h);
  }

  /** After the whole header block the request is queued, or its body is awaited. */
  lemma HeadSteps(h: H2, g: H2, spot: Spot, sent: seq<Sent>, maxBody: nat)
    requires (spot == Between || spot == CutHead) && Fits(spot, sent) && (spot == Between ==> sent[0].cut.None?)
    requires Tidy(h) && g.accepted == h.accepted && g.ready == h.ready && g.pending == h.pending
    requires DEFAULT_MAX_FRAME <= g.maxFrameSize && g.partialHeaders.None? && g.partialRequest.None?
    requires Admissible(sent[0], maxBody) && g.lastStreamId == sent[0].request.stream
    requires Ordered(sent[1..], sent[0].request.stream, maxBody)
    ensures Steps(h, AfterHead(g, sent[0].request), spot, sent, maxBody)
  {
    hide Ordered, Admissible, Http2Client.Received, HeaderBlock;
    var c := sent[0].request;
    Unchanged(h, g);
    if c.body.None? {
      Queues(g, Http2Client.Received(c));
    } else {
      Unchanged(h, AfterHead(g, c).h);
    }
  }

  lemma BetweenSteps(h: H2, sent: seq<Sent>, maxBody: nat)
    requires sent != [] && At(h, Between, sent, maxBody) && Tidy(h) && Admissible(sent[0], maxBody)
    ensures Steps(h, HandleFrame(h, HeadFrame(sent[0], maxBody), maxBody), Between, sent, maxBody)
  {
    hide HandleFrame, Http2Client.Received, HeaderBlock, HeadFlags, Steps, AfterHead, CleanText, Target;
    var s := sent[0];
    var c, g := s.request, h.(lastStreamId := s.request.stream);
    if s.cut.None? {
      HeadTaken(h, c, maxBody);
      HeadSteps(h, g, Between, sent, maxBody);
    } else {
      CutSteps(h, sent, maxBody);
    }
  }

  lemma CutSteps(h: H2, sent: seq<Sent>, maxBody: nat)
    requires sent != [] && At(h, Between, sent, maxBody) && Tidy(h) && Admissible(sent[0], maxBody) && sent[0].cut.Some?
    ensures Steps(h, HandleFrame(h, HeadFrame(sent[0], maxBody), maxBody), Between, sent, maxBody)
  {
    hide Http2Client.Received, HeaderBlock, HeadFlags, Has, CleanText, Target, Ordered, DecodeHeaders;
    var c := sent[0].request;
    HeadFlagBits(false, c.body.None?);
    HeaderBlockIsShort(c);
    var o := HandleFrame(h, HeadFrame(sent[0], maxBody), maxBody);
    OrderedStep(sent, h.lastStreamId, maxBody);
    Unchanged(h, o.h);
  }

  lemma OrderedStep(sent: seq<Sent>, last: nat, maxBody: nat)
    requires sent != [] && Ordered(sent, last, maxBody)
    ensures Admissible(sent[0], maxBody) && sent[0].request.stream > last
    ensures Ordered(sent[1..], sent[0].request.stream, maxBody)
  {
    hide Admissible;
  }

  lemma TailSteps(h: H2, sent: seq<Sent>, maxBody: nat)
    requires At(h, CutHead, sent, maxBody) && Tidy(h)
    ensures Steps(h, HandleFrame(h, TailFrame(sent[0], maxBody), maxBody), CutHead, sent, maxBody)
  {
    hide HandleFrame, Http2Client.Received, HeaderBlock, HeadFlags, Steps, AfterHead, CleanText, Target, Ordered;
    var s := sent[0];
    var g := h.(partialHeaders := None, lastStreamId := 0);
    CutHeadTaken(g, s.request, s.cut.value, maxBody);
    CutState(g, s, maxBody);
    assert h == g.(lastStreamId := s.request.stream, partialHeaders := h.partialHeaders);
    HeadSteps(h, g.(lastStreamId := s.request.stream), CutHead, sent, maxBody);
  }

  lemma CutState(g: H2, s: Sent, maxBody: nat)
    requires Admissible(s, maxBody) && s.cut.Some? && CanRead(g, s.request, maxBody)
    ensures HandleFrame(g, HeadFrame(s, maxBody), maxBody).h
            == g.(lastStreamId := s.request.stream,
                  partialHeaders := Some(HeaderPart(s.request.stream, HeaderBlock(s.request)[..s.cut.value],
                      s.request.body.None?)))
  {
    hide Http2Client.Received, HeaderBlock, HeadFlags, Has, CleanText, Target, DecodeHeaders;
    HeadFlagBits(false, s.request.body.None?);
    HeaderBlockIsShort(s.request);
  }

  lemma DataSteps(h: H2, sent: seq<Sent>, maxBody: nat)
    requires At(h, HeadDone, sent, maxBody) && Tidy(h)
    ensures Steps(h, HandleFrame(h, DataFrame(sent[0], maxBody), maxBody), HeadDone, sent, maxBody)
  {
    hide HandleFrame, Http2Client.Received, HeaderBlock, CleanText, Target, Ordered, FrameBytes, QueueRequest;
    var c := sent[0].request;
    var g := h.(partialRequest := None, lastStreamId := 0);
    DataTaken(g, c, maxBody);
    assert AfterHead(g.(lastStreamId := c.stream), c).h == h;
    var f := Frame(DATA, END_STREAM, c.stream, c.body.value);
    var w := WindowUpdates(g.(lastStreamId := c.stream), f);
    Unchanged(h, w);
    Queues(w, Http2Client.Received(c));
  }

  lemma SpotSteps(h: H2, spot: Spot, sent: seq<Sent>, maxBody: nat)
    requires At(h, spot, sent, maxBody) && Tidy(h) && Fits(spot, sent)
    ensures AllAdmissible(sent, maxBody)
    ensures Steps(h, HandleFrame(h, NextFrame(spot, sent, maxBody), maxBody), spot, sent, maxBody)
    ensures |NextFrame(spot, sent, maxBody).payload| <= DEFAULT_MAX_FRAME
  {
    hide HandleFrame, HeaderBlock, Http2Client.Received, Steps, Sendable;
    AtAdmissible(h, spot, sent, maxBody);
    FrameIsShort(spot, sent, maxBody);
    match spot
    case Opening => OpeningSteps(h, sent, maxBody);
    case Between => BetweenSteps(h, sent, maxBody);
    case CutHead => TailSteps(h, sent, maxBody);
    case HeadDone => DataSteps(h, sent, maxBody);
  }

  lemma AtAdmissible(h: H2, spot: Spot, sent: seq<Sent>, maxBody: nat)
    requires At(h, spot, sent, maxBody)
    ensures AllAdmissible(sent, maxBody)
  {
    hide Admissible, HeaderBlock, Http2Client.Received;
    if spot == Opening || spot == Between {
      OrderedAdmissible(sent, h.lastStreamId, maxBody);
    } else {
      OrderedAdmissible(sent[1..], sent[0].request.stream, maxBody);
      assert sent == [sent[0]] + sent[1..];
    }
  }

  lemma FrameIsShort(spot: Spot, sent: seq<Sent>, maxBody: nat)
    requires AllAdmissible(sent, maxBody) && Fits(spot, sent)
    ensures |NextFrame(spot, sent, maxBody).payload| <= DEFAULT_MAX_FRAME
  {
    hide HeaderBlock, CleanText, Target;
    if spot != Opening {
      HeaderBlockIsShort(sent[0].request);
    }
  }

  // ---------- any part of a session ----------

  /** What draining a part of the session leads to, `done` requests further. */
  ghost predicate Reaches(h: H2, sent: seq<Sent>, unread: seq<byte>, d: Drained, spot: Spot, done: nat, maxBody: nat) {
    && done <= |sent| && AllAdmissible(sent[done..], maxBody)
    && At(d.h, spot, sent[done..], maxBody)
    && Gained(h, d.h, AllReceived(sent[..done]))
    && d.rx + unread == Remaining(spot, sent[done..], maxBody)
  }

  lemma GainedTwice(h: H2, g: H2, k: H2, a: seq<Request>, b: seq<Request>)
    requires Gained(h, g, a) && Gained(g, k, b)
    ensures Gained(h, k, a + b)
  {
  }

  /** Less than the next frame changes nothing. */
  lemma TooShort(h: H2, f: Frame, a: seq<byte>, more: seq<byte>, maxBody: nat)
    requires f.stream < 0x8000_0000 && |f.payload| <= h.maxFrameSize && |f.payload| < 0x100_0000
    requires a <= FrameOnWire(f) + more && |a| < |FrameOnWire(f)|
    ensures Drain(h, a, maxBody) == Drained(h, a, None)
  {
    hide FrameBytes, WireLength, FrameAt, HandleFrame;
    FrameReadsBack(f.ty, f.flags, f.stream, f.payload, more);
    if |a| >= FRAME_HEADER {
      SameHeader(a, (FrameOnWire(f) + more)[|a|..]);
      assert a + (FrameOnWire(f) + more)[|a|..] == FrameOnWire(f) + more;
    }
  }

  lemma FrameDrained(h: H2, spot: Spot, sent: seq<Sent>, more: seq<byte>, maxBody: nat)
    requires At(h, spot, sent, maxBody) && Tidy(h) && Fits(spot, sent) && AllAdmissible(sent, maxBody)
    ensures var f := NextFrame(spot, sent, maxBody);
            var o := HandleFrame(h, f, maxBody);
            Steps(h, o, spot, sent, maxBody)
            && Drain(h, FrameOnWire(f) + more, maxBody)
               == if o.error.Some? then Drained(o.h, more, o.error) else Drain(o.h, more, maxBody)
  {
    hide Drain, HandleFrame, At, FrameBytes, NextFrame, Admissible;
    SpotSteps(h, spot, sent, maxBody);
    BigFrames(h, spot, sent, maxBody);
    DrainStep(h, NextFrame(spot, sent, maxBody), more, maxBody);
  }

  lemma BigFrames(h: H2, spot: Spot, sent: seq<Sent>, maxBody: nat)
    requires At(h, spot, sent, maxBody)
    ensures DEFAULT_MAX_FRAME <= h.maxFrameSize && (spot == Between || Fits(spot, sent))
  {
  }

  /** Draining any first part of what remains of the session: each request completed in it
      waits behind the others, unless there was no room for one. */
  lemma {:induction false} DrainPrefix(h: H2, spot: Spot, sent: seq<Sent>, a: seq<byte>, maxBody: nat)
      returns (spot': Spot, done: nat)
    requires At(h, spot, sent, maxBody) && Tidy(h) && AllAdmissible(sent, maxBody)
            && (spot == Between || Fits(spot, sent))
    requires a <= Remaining(spot, sent, maxBody)
    ensures var d := Drain(h, a, maxBody);
            if d.error.None? then
              && Reaches(h, sent, Remaining(spot, sent, maxBody)[|a|..], d, spot', done, maxBody)
              && (a == Remaining(spot, sent, maxBody) ==> done == |sent| && d.rx == [])
            else
              && d.error == Some(TooManyStreams)
              && |Waiting(h)| + |sent| > MAX_PENDING_STREAMS + 1 && |Waiting(d.h)| > MAX_PENDING_STREAMS
    decreases |sent|, Rank(spot)
  {
    hide Drain, HandleFrame, At, FrameOnWire, NextFrame, Admissible, Remaining, Reaches, Gained, Steps, Waiting;
    spot', done := spot, 0;
    if !Fits(spot, sent) {
      EndOfSession(h, a, maxBody);
      StaysHere(h, spot, sent, a, maxBody);
      return;
    }
    var f, next, left := NextFrame(spot, sent, maxBody), NextSpot(spot, sent), NextSent(spot, sent);
    RemainingStep(spot, sent, maxBody);
    var more := Remaining(next, left, maxBody);
    BigFrames(h, spot, sent, maxBody);
    FrameIsShort(spot, sent, maxBody);
    if |a| < |FrameOnWire(f)| {
      TooShort(h, f, a, more, maxBody);
      StaysHere(h, spot, sent, a, maxBody);
      assert a != Remaining(spot, sent, maxBody);
    } else {
      var a' := a[|FrameOnWire(f)|..];
      assert a == FrameOnWire(f) + a' && a' <= more;
      assert Remaining(spot, sent, maxBody)[|a|..] == more[|a'|..];
      FrameDrained(h, spot, sent, a', maxBody);
      var o := HandleFrame(h, f, maxBody);
      StepsMean(h, o, spot, sent, maxBody);
      if o.error.None? {
        spot', done := DrainPrefix(o.h, next, left, a', maxBody);
        if Drain(h, a, maxBody).error.None? {
          GoesOn(h, o.h, spot, sent, more[|a'|..], Drain(h, a, maxBody), spot', done, maxBody);
        }
        done := done + if Completes(spot, sent) then 1 else 0;
      }
    }
  }

  lemma EndOfSession(h: H2, a: seq<byte>, maxBody: nat)
    requires a <= Remaining(Between, [], maxBody)
    ensures a == [] && Remaining(Between, [], maxBody) == [] && Drain(h, a, maxBody) == Drained(h, a, None)
  {
    NothingDrained(h, maxBody);
  }

  lemma StaysHere(h: H2, spot: Spot, sent: seq<Sent>, a: seq<byte>, maxBody: nat)
    requires At(h, spot, sent, maxBody) && Tidy(h) && AllAdmissible(sent, maxBody)
            && (spot == Between || Fits(spot, sent))
    requires a <= Remaining(spot, sent, maxBody)
    ensures Reaches(h, sent, Remaining(spot, sent, maxBody)[|a|..], Drained(h, a, None), spot, 0, maxBody)
  {
    hide At, Remaining, Admissible;
    Unchanged(h, h);
    assert sent[0..] == sent && sent[..0] == [];
  }

  lemma StepsMean(h: H2, o: Outcome, spot: Spot, sent: seq<Sent>, maxBody: nat)
    requires Fits(spot, sent) && Steps(h, o, spot, sent, maxBody)
    ensures o.error.None? ==>
              && At(o.h, NextSpot(spot, sent), NextSent(spot, sent), maxBody) && Tidy(o.h)
              && Gained(h, o.h, if Completes(spot, sent) then [Http2Client.Received(sent[0].request)] else [])
              && |Waiting(o.h)| == |Waiting(h)| + if Completes(spot, sent) then 1 else 0
    ensures o.error.Some? ==>
              && o.error == Some(TooManyStreams) && sent != []
              && |Waiting(h)| > MAX_PENDING_STREAMS && Waiting(o.h) == Waiting(h)
  {
    hide At, Http2Client.Received, Waiting;
  }

  lemma GoesOn(h: H2, g: H2, spot: Spot, sent: seq<Sent>, unread: seq<byte>, d: Drained, spot': Spot, done: nat,
               maxBody: nat)
    requires Fits(spot, sent)
    requires Gained(h, g, if Completes(spot, sent) then [Http2Client.Received(sent[0].request)] else [])
    requires Reaches(g, NextSent(spot, sent), unread, d, spot', done, maxBody)
    ensures Reaches(h, sent, unread, d, spot', done + if Completes(spot, sent) then 1 else 0, maxBody)
  {
    hide At, Remaining, Admissible, Http2Client.Received, Gained;
    var left := NextSent(spot, sent);
    var now := if Completes(spot, sent) then [Http2Client.Received(sent[0].request)] else [];
    GainedTwice(h, g, d.h, now, AllReceived(left[..done]));
    if Completes(spot, sent) {
      assert left[done..] == sent[done + 1..];
      assert sent[..done + 1] == [sent[0]] + left[..done] && sent[..done + 1][1..] == left[..done];
    } else {
      assert now + AllReceived(left[..done]) == AllReceived(left[..done]);
    }
  }
}
