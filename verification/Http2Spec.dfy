/** The HTTP/2 connection as a state machine on values: what each frame does
    (RFC 7540 sections 5 and 6; src/fastapi_mojo_rs/src/bridge/http2.rs). */
module Http2Spec {
  import opened Wrappers
  import opened Bits
  import opened Hpack
  import opened Http2Frames
  import opened Http2Requests

  const DEFAULT_MAX_FRAME: nat := 16384
  const MAX_FRAME_SIZE: nat := 1048576
  const RX_MAX: nat := 2097152
  const HEADER_BLOCK_MAX: nat := 16384
  const MAX_HEADER_LIST: nat := 256
  const MAX_PENDING_STREAMS: nat := 100
  const MAX_WINDOW: int := 0x7fff_ffff

  datatype H2Error =
    | BufferExceeded | FrameTooLarge | ExpectedContinuation | MalformedSettings | InvalidWindow
    | InvalidFrameSize | MalformedSettingsAck | MalformedPing | MalformedWindowUpdate | ZeroIncrement
    | ClientGoaway | PushPromise | InvalidStream | MalformedPadding | UnknownStream | BodyTooLarge
    | LengthMismatch | StreamOverlap | MalformedPriority | HeaderBlockTooLarge | UnexpectedContinuation
    | HpackFailed | HeaderListTooLarge | BadRequest(error: RequestError) | TooManyStreams

  /** A header block still waiting for its continuation. */
  datatype HeaderPart = HeaderPart(stream: nat, block: seq<byte>, endStream: bool)

  /** The connection without its receive buffer.  `accepted` records every request that was
      queued, oldest first. */
  datatype H2 = H2(
    table: Table,
    partialHeaders: Option<HeaderPart>,
    partialRequest: Option<Request>,
    ready: Option<Request>,
    pending: seq<Request>,
    current: Option<Request>,
    frames: seq<seq<byte>>,
    sendWindow: int,
    peerInitialWindow: int,
    lastStreamId: nat,
    maxFrameSize: nat,
    accepted: seq<Request>)

  /** MAX_CONCURRENT_STREAMS, INITIAL_WINDOW_SIZE and MAX_FRAME_SIZE, as the server announces them. */
  const OWN_SETTINGS: seq<(nat, nat)> := [(3, 100), (4, 1048576), (5, 1048576)]

  /** A connection that has only announced its settings. */
  function NewH2(): H2 {
    H2(Table([], TABLE_LIMIT), None, None, None, [], None, [FrameBytes(SETTINGS, 0, 0, SettingsPayload(OWN_SETTINGS))],
       65535, 65535, 0, DEFAULT_MAX_FRAME, [])
  }

  /** The state after a frame, and the error it raised, if any. */
  datatype Outcome = Outcome(h: H2, error: Option<H2Error>)

  function Fine(h: H2): Outcome {
    Outcome(h, None)
  }

  function Bad(h: H2, e: H2Error): Outcome {
    Outcome(h, Some(e))
  }

  function Push(h: H2, frame: seq<byte>): H2 {
    h.(frames := h.frames + [frame])
  }

  function Clamp(w: int): int {
    if w < 0 then 0 else if w > MAX_WINDOW then MAX_WINDOW else w
  }

  // ---------- requests ----------

  function QueueRequest(h: H2, r: Request): Outcome {
    if h.ready.None? then Fine(h.(ready := Some(r), accepted := h.accepted + [r]))
    else if |h.pending| < MAX_PENDING_STREAMS then
      Fine(h.(pending := h.pending + [r], accepted := h.accepted + [r]))
    else Bad(h, TooManyStreams)
  }

  /** A request whose header block is complete. */
  function StartRequest(h: H2, r: Request, endStream: bool, maxBody: nat): Outcome {
    match ContentLength(r)
    case Err(e) => Bad(h, BadRequest(e))
    case Ok(length) =>
      if length.Some? && length.value > maxBody then Bad(h, BodyTooLarge)
      else if !endStream then Fine(h.(partialRequest := Some(r)))
      else if length.Some? && length.value != 0 then Bad(h, LengthMismatch)
      else QueueRequest(h, r)
  }

  ghost function DecodeHeaders(h: H2, stream: nat, block: seq<byte>, endStream: bool, maxBody: nat): Outcome {
    var decoded := ReadBlock(h.table, block, true, []);
    var h' := h.(table := decoded.table);
    match decoded.result
    case Err(_) => Bad(h', HpackFailed)
    case Ok(fields) =>
      if |fields| > MAX_HEADER_LIST then Bad(h', HeaderListTooLarge)
      else
        match AddHeaders(Head([], [], [], [], []), fields)
        case Err(e) => Bad(h', BadRequest(e))
        case Ok(head) =>
          match MakeRequest(stream, head)
          case Err(e) => Bad(h', BadRequest(e))
          case Ok(r) => StartRequest(h', r, endStream, maxBody)
  }

  ghost function HandleHeaders(h: H2, f: Frame, maxBody: nat): Outcome {
    if h.partialHeaders.Some? || h.partialRequest.Some? then Bad(h, StreamOverlap)
    else
      match RemovePadding(f.flags, f.payload)
      case BadPadding => Bad(h, MalformedPadding)
      case Unpadded(padded) =>
        if Has(f.flags, PRIORITY_FLAG) && |padded| < 5 then Bad(h, MalformedPriority)
        else
          var data := if Has(f.flags, PRIORITY_FLAG) then padded[5..] else padded;
          if Has(f.flags, END_HEADERS) then DecodeHeaders(h, f.stream, data, Has(f.flags, END_STREAM), maxBody)
          else if |data| > HEADER_BLOCK_MAX then Bad(h, HeaderBlockTooLarge)
          else Fine(h.(partialHeaders := Some(HeaderPart(f.stream, data, Has(f.flags, END_STREAM)))))
  }

  ghost function HandleContinuation(h: H2, f: Frame, maxBody: nat): Outcome {
    match h.partialHeaders
    case None => Bad(h, UnexpectedContinuation)
    case Some(HeaderPart(stream, block, endStream)) =>
      if stream != f.stream then Bad(h, UnexpectedContinuation)
      else if |block| + |f.payload| > HEADER_BLOCK_MAX then Bad(h, HeaderBlockTooLarge)
      else if Has(f.flags, END_HEADERS) then
        DecodeHeaders(h.(partialHeaders := None), f.stream, block + f.payload, endStream, maxBody)
      else Fine(h.(partialHeaders := Some(HeaderPart(stream, block + f.payload, endStream))))
  }

  function WindowUpdates(h: H2, f: Frame): H2
    requires f.stream < 0x8000_0000
  {
    if f.payload == [] then h
    else
      var size := Be32(|f.payload| % 0x1_0000_0000);
      Push(Push(h, FrameBytes(WINDOW_UPDATE, 0, 0, size)), FrameBytes(WINDOW_UPDATE, 0, f.stream, size))
  }

  function HandleData(h: H2, f: Frame, maxBody: nat): Outcome
    requires f.stream < 0x8000_0000
  {
    var h' := WindowUpdates(h, f);
    match RemovePadding(f.flags, f.payload)
    case BadPadding => Bad(h', MalformedPadding)
    case Unpadded(data) =>
      if h.partialRequest.None? || h.partialRequest.value.streamId != f.stream then Bad(h', UnknownStream)
      else
        var r := h.partialRequest.value;
        if |r.body| + |data| > maxBody then Bad(h', BodyTooLarge)
        else
          var r' := r.(body := r.body + data);
          if Has(f.flags, END_STREAM) then FinishRequest(h'.(partialRequest := None), r')
          else Fine(h'.(partialRequest := Some(r')))
  }

  /** A request whose body is complete. */
  function FinishRequest(h: H2, r: Request): Outcome {
    match ContentLength(r)
    case Err(e) => Bad(h, BadRequest(e))
    case Ok(length) =>
      if length.Some? && length.value != |r.body| then Bad(h, LengthMismatch) else QueueRequest(h, r)
  }

  // ---------- connection frames ----------

  /** Applies settings six bytes at a time; earlier ones stand when a later one is bad. */
  function ApplySettings(h: H2, payload: seq<byte>): Outcome
    decreases |payload|
  {
    if |payload| < 6 then Fine(h)
    else
      var id := payload[0] as nat * 256 + payload[1];
      var value := FromBe32(payload[2], payload[3], payload[4], payload[5]);
      if id == 4 then
        if value > 0x7fff_ffff then Bad(h, InvalidWindow)
        else ApplySettings(h.(peerInitialWindow := value,
                              sendWindow := Clamp(h.sendWindow + value - h.peerInitialWindow)), payload[6..])
      else if id == 5 then
        if value < DEFAULT_MAX_FRAME || value > MAX_FRAME_SIZE then Bad(h, InvalidFrameSize)
        else ApplySettings(h.(maxFrameSize := value), payload[6..])
      else ApplySettings(h, payload[6..])
  }

  function HandleSettings(h: H2, f: Frame): Outcome {
    if Has(f.flags, ACK) then if f.payload == [] then Fine(h) else Bad(h, MalformedSettingsAck)
    else if |f.payload| % 6 != 0 then Bad(h, MalformedSettings)
    else
      var o := ApplySettings(h, f.payload);
      if o.error.Some? then o else Fine(Push(o.h, FrameBytes(SETTINGS, ACK, 0, [])))
  }

  function HandleWindowUpdate(h: H2, f: Frame): Outcome {
    if |f.payload| != 4 then Bad(h, MalformedWindowUpdate)
    else
      var increment := FromBe32(f.payload[0], f.payload[1], f.payload[2], f.payload[3]) % 0x8000_0000;
      if increment == 0 then Bad(h, ZeroIncrement)
      else Fine(h.(sendWindow := Clamp(h.sendWindow + increment)))
  }

  function HandlePing(h: H2, f: Frame): Outcome {
    if |f.payload| != 8 then Bad(h, MalformedPing)
    else if Has(f.flags, ACK) then Fine(h)
    else Fine(Push(h, FrameBytes(PING, ACK, 0, f.payload)))
  }

  function CurrentStream(h: H2): nat {
    if h.current.Some? then h.current.value.streamId else 0
  }

  predicate IsClientStream(stream: nat) {
    stream % 2 == 1
  }

  ghost function HandleFrame(h: H2, f: Frame, maxBody: nat): Outcome
    requires f.stream < 0x8000_0000
  {
    if h.partialHeaders.Some? && f.ty != CONTINUATION then Bad(h, ExpectedContinuation)
    else if f.ty == DATA && IsClientStream(f.stream) then HandleData(h, f, maxBody)
    else if f.ty == HEADERS && IsClientStream(f.stream) && f.stream > h.lastStreamId then
      HandleHeaders(h.(lastStreamId := f.stream), f, maxBody)
    else if f.ty == CONTINUATION && f.stream != 0 then HandleContinuation(h, f, maxBody)
    else HandleControl(h, f)
  }

  function HandleControl(h: H2, f: Frame): Outcome {
    if f.ty == SETTINGS && f.stream == 0 then HandleSettings(h, f)
    else if f.ty == PING && f.stream == 0 then HandlePing(h, f)
    else if f.ty == WINDOW_UPDATE && (f.stream == 0 || f.stream == CurrentStream(h)) then HandleWindowUpdate(h, f)
    else if f.ty == PRIORITY && |f.payload| == 5 then Fine(h)
    else if f.ty == RST_STREAM && |f.payload| == 4 then
      if h.partialRequest.Some? && h.partialRequest.value.streamId == f.stream then Fine(h.(partialRequest := None))
      else Fine(h)
    else if f.ty == GOAWAY && f.stream == 0 then Bad(h, ClientGoaway)
    else if f.ty == PUSH_PROMISE then Bad(h, PushPromise)
    else if f.ty in {SETTINGS, PING, WINDOW_UPDATE, PRIORITY, RST_STREAM, GOAWAY} then Bad(h, InvalidStream)
    else Fine(h)
  }

  // ---------- the receive buffer ----------

  /** Moves the oldest pending request to the ready slot when that is free. */
  function Promote(h: H2): H2 {
    if h.ready.None? && h.pending != [] then h.(ready := Some(h.pending[0]), pending := h.pending[1..]) else h
  }

  /** The state, the bytes left in the buffer, and the error that stopped it, if any. */
  datatype Drained = Drained(h: H2, rx: seq<byte>, error: Option<H2Error>)

  /** Handles the complete frames in the buffer, one after the other. */
  ghost function Drain(h: H2, rx: seq<byte>, maxBody: nat): (d: Drained)
    ensures |d.rx| <= |rx|
    decreases |rx|
  {
    if |rx| < FRAME_HEADER then Drained(h, rx, None)
    else if WireLength(rx) > h.maxFrameSize then Drained(h, rx, Some(FrameTooLarge))
    else if |rx| < FRAME_HEADER + WireLength(rx) then Drained(h, rx, None)
    else
      var rest := rx[FRAME_HEADER + WireLength(rx)..];
      var o := HandleFrame(h, FrameAt(rx), maxBody);
      if o.error.Some? then Drained(o.h, rest, o.error) else Drain(Promote(o.h), rest, maxBody)
  }

  ghost function Feed(h: H2, rx: seq<byte>, bytes: seq<byte>, maxBody: nat): Drained {
    if |rx| + |bytes| > RX_MAX then Drained(h, rx, Some(BufferExceeded)) else Drain(h, rx + bytes, maxBody)
  }

  // ---------- chunking does not matter ----------

  /** Draining what is there and then what comes later is draining it all at once. */
  lemma {:induction false} DrainSplit(h: H2, rx: seq<byte>, more: seq<byte>, maxBody: nat)
    ensures var d := Drain(h, rx, maxBody);
            Drain(h, rx + more, maxBody)
            == if d.error.Some? then Drained(d.h, d.rx + more, d.error) else Drain(d.h, d.rx + more, maxBody)
    decreases |rx|
  {
    hide HandleFrame, Promote, WireLength, FrameAt;
    if |rx| >= FRAME_HEADER {
      SameHeader(rx, more);
      if WireLength(rx) <= h.maxFrameSize && |rx| >= FRAME_HEADER + WireLength(rx) {
        var end := FRAME_HEADER + WireLength(rx);
        assert (rx + more)[end..] == rx[end..] + more;
        var o := HandleFrame(h, FrameAt(rx), maxBody);
        if o.error.None? {
          DrainSplit(Promote(o.h), rx[end..], more, maxBody);
        }
      }
    }
  }

  lemma SameHeader(rx: seq<byte>, more: seq<byte>)
    requires |rx| >= FRAME_HEADER
    ensures WireLength(rx + more) == WireLength(rx)
    ensures |rx| >= FRAME_HEADER + WireLength(rx) ==> FrameAt(rx + more) == FrameAt(rx)
  {
  }

  /** Feeds a list of chunks until one fails. */
  ghost function FeedAll(h: H2, rx: seq<byte>, chunks: seq<seq<byte>>, maxBody: nat): Drained
    decreases |chunks|
  {
    if chunks == [] then Drained(h, rx, None)
    else
      var d := Feed(h, rx, chunks[0], maxBody);
      if d.error.Some? then d else FeedAll(d.h, d.rx, chunks[1..], maxBody)
  }

  function Joined(chunks: seq<seq<byte>>): seq<byte> {
    if chunks == [] then [] else chunks[0] + Joined(chunks[1..])
  }

  lemma {:induction false} SettledChunks(h: H2, rx: seq<byte>, chunks: seq<seq<byte>>, maxBody: nat)
    requires |rx| + |Joined(chunks)| <= RX_MAX
    requires chunks != [] || Drain(h, rx, maxBody) == Drained(h, rx, None)
    ensures var d, e := FeedAll(h, rx, chunks, maxBody), Feed(h, rx, Joined(chunks), maxBody);
            d.h == e.h && d.error == e.error && (d.error.None? ==> d.rx == e.rx)
    decreases |chunks|
  {
    hide Drain;
    if chunks == [] {
      assert rx + [] == rx;
    } else {
      var d := Feed(h, rx, chunks[0], maxBody);
      assert rx + Joined(chunks) == (rx + chunks[0]) + Joined(chunks[1..]);
      DrainSplit(h, rx + chunks[0], Joined(chunks[1..]), maxBody);
      if d.error.None? {
        DrainSettles(h, rx + chunks[0], maxBody);
        SettledChunks(d.h, d.rx, chunks[1..], maxBody);
      }
    }
  }

  /** However the bytes are cut into chunks, feeding them ends in the same state with the
      same error as feeding them at once, and with the same buffer if nothing failed. */
  lemma ChunkingIsInvisible(h: H2, rx: seq<byte>, chunks: seq<seq<byte>>, maxBody: nat)
    requires chunks != [] && |rx| + |Joined(chunks)| <= 2097152
    ensures var d, e := FeedAll(h, rx, chunks, maxBody), Feed(h, rx, Joined(chunks), maxBody);
            d.h == e.h && d.error == e.error && (d.error.None? ==> d.rx == e.rx)
  {
    SettledChunks(h, rx, chunks, maxBody);
  }

  /** After a successful drain nothing more can be drained. */
  lemma {:induction false} DrainSettles(h: H2, rx: seq<byte>, maxBody: nat)
    requires Drain(h, rx, maxBody).error.None?
    ensures var d := Drain(h, rx, maxBody); Drain(d.h, d.rx, maxBody) == d && |d.rx| <= |rx|
    decreases |rx|
  {
    hide HandleFrame, Promote, WireLength, FrameAt;
    if |rx| >= FRAME_HEADER && |rx| >= FRAME_HEADER + WireLength(rx) {
      DrainSettles(Promote(HandleFrame(h, FrameAt(rx), maxBody).h), rx[FRAME_HEADER + WireLength(rx)..], maxBody);
    }
  }
}
