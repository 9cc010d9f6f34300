/** The HTTP/2 connection as the source keeps it, an object changed in place
    (src/fastapi_mojo_rs/src/bridge/http2.rs). */
module Http2 {
  import opened Wrappers
  import opened Bits
  import opened Hpack
  import opened Http2Frames
  import opened Http2Requests
  import opened Http2Spec
  import Life = Http2Lifecycle

  class H2Connection {
    var rx: seq<byte>
    const decoder: HpackDecoder
    var partialHeaders: Option<HeaderPart>
    var partialRequest: Option<Request>
    var ready: Option<Request>
    var pending: seq<Request>
    var current: Option<Request>
    var currentStream: Option<nat>
    var frames: seq<seq<byte>>
    var sendWindow: int
    var peerInitialWindow: int
    var lastStreamId: nat
    var maxFrameSize: nat
    /** Every request ever queued, oldest first. */
    ghost var accepted: seq<Request>

    ghost predicate Valid()
      reads this, decoder
    {
      && decoder.Valid() && lastStreamId < 0x8000_0000
      && currentStream == (if current.Some? then Some(current.value.streamId) else None)
    }

    /** Everything but the receive buffer. */
    ghost function Core(): H2
      reads this, decoder
    {
      H2(decoder.State(), partialHeaders, partialRequest, ready, pending, current, frames, sendWindow,
         peerInitialWindow, lastStreamId, maxFrameSize, accepted)
    }

    constructor (rx: seq<byte>)
      ensures Valid() && Core() == NewH2() && this.rx == rx && fresh(decoder)
    {
      this.rx := rx;
      decoder := new HpackDecoder();
      partialHeaders, partialRequest, ready, pending, current, currentStream := None, None, None, [], None, None;
      frames := [FrameBytes(SETTINGS, 0, 0, SettingsPayload(OWN_SETTINGS))];
      sendWindow, peerInitialWindow, lastStreamId, maxFrameSize := 65535, 65535, 0, DEFAULT_MAX_FRAME;
      accepted := [];
    }

    // ---------- requests ----------

    method QueueRequest(r: Request) returns (error: Option<H2Error>)
      requires Valid()
      modifies this
      ensures Valid() && rx == old(rx)
      ensures Outcome(Core(), error) == Http2Spec.QueueRequest(old(Core()), r)
    {
      if ready.None? {
        ready := Some(r);
      } else if |pending| < MAX_PENDING_STREAMS {
        pending := pending + [r];
      } else {
        return Some(TooManyStreams);
      }
      accepted := accepted + [r];
      return None;
    }

    method StartRequest(r: Request, endStream: bool, maxBody: nat) returns (error: Option<H2Error>)
      requires Valid()
      modifies this
      ensures Valid() && rx == old(rx)
      ensures Outcome(Core(), error) == Http2Spec.StartRequest(old(Core()), r, endStream, maxBody)
    {
      hide ContentLength;
      var length := ContentLength(r);
      if length.Err? {
        return Some(BadRequest(length.error));
      }
      if length.value.Some? && length.value.value > maxBody {
        return Some(BodyTooLarge);
      }
      if endStream {
        if length.value.Some? && length.value.value != 0 {
          return Some(LengthMismatch);
        }
        error := QueueRequest(r);
      } else {
        partialRequest := Some(r);
        return None;
      }
    }

    method DecodeHeaders(stream: nat, block: seq<byte>, endStream: bool, maxBody: nat) returns (error: Option<H2Error>)
      requires Valid()
      modifies this, decoder
      ensures Valid() && rx == old(rx)
      ensures Outcome(Core(), error) == Http2Spec.DecodeHeaders(old(Core()), stream, block, endStream, maxBody)
    {
      hide ReadBlock, AddHeaders, MakeRequest, Http2Spec.StartRequest;
      var fields := decoder.Decode(block);
      if fields.Err? {
        return Some(HpackFailed);
      }
      if |fields.value| > MAX_HEADER_LIST {
        return Some(HeaderListTooLarge);
      }
      var request := BuildRequest(stream, fields.value);
      if request.Err? {
        return Some(BadRequest(request.error));
      }
      error := StartRequest(request.value, endStream, maxBody);
    }

    method HandleHeaders(f: Frame, maxBody: nat) returns (error: Option<H2Error>)
      requires Valid()
      modifies this, decoder
      ensures Valid() && rx == old(rx)
      ensures Outcome(Core(), error) == Http2Spec.HandleHeaders(old(Core()), f, maxBody)
    {
      hide Http2Spec.DecodeHeaders, RemovePadding;
      if partialHeaders.Some? || partialRequest.Some? {
        return Some(StreamOverlap);
      }
      var unpadded := RemovePadding(f.flags, f.payload);
      if unpadded.BadPadding? {
        return Some(MalformedPadding);
      }
      var data := unpadded.data;
      if Has(f.flags, PRIORITY_FLAG) {
        if |data| < 5 {
          return Some(MalformedPriority);
        }
        data := data[5..];
      }
      var endStream := Has(f.flags, END_STREAM);
      if Has(f.flags, END_HEADERS) {
        error := DecodeHeaders(f.stream, data, endStream, maxBody);
      } else {
        if |data| > HEADER_BLOCK_MAX {
          return Some(HeaderBlockTooLarge);
        }
        partialHeaders := Some(HeaderPart(f.stream, data, endStream));
        return None;
      }
    }

    method HandleContinuation(f: Frame, maxBody: nat) returns (error: Option<H2Error>)
      requires Valid()
      modifies this, decoder
      ensures Valid() && rx == old(rx)
      ensures Outcome(Core(), error) == Http2Spec.HandleContinuation(old(Core()), f, maxBody)
    {
      hide Http2Spec.DecodeHeaders;
      if partialHeaders.None? || partialHeaders.value.stream != f.stream {
        return Some(UnexpectedContinuation);
      }
      var part := partialHeaders.value;
      if |part.block| + |f.payload| > HEADER_BLOCK_MAX {
        return Some(HeaderBlockTooLarge);
      }
      partialHeaders := Some(part.(block := part.block + f.payload));
      if Has(f.flags, END_HEADERS) {
        var block := partialHeaders.value.block;
        partialHeaders := None;
        error := DecodeHeaders(f.stream, block, part.endStream, maxBody);
      } else {
        return None;
      }
    }

    method HandleData(f: Frame, maxBody: nat) returns (error: Option<H2Error>)
      requires Valid() && f.stream < 0x8000_0000
      modifies this
      ensures Valid() && rx == old(rx)
      ensures Outcome(Core(), error) == Http2Spec.HandleData(old(Core()), f, maxBody)
    {
      hide RemovePadding, ContentLength, FrameBytes, Be32, Http2Spec.QueueRequest;
      if f.payload != [] {
        var size := Be32(|f.payload| % 0x1_0000_0000);
        frames := frames + [FrameBytes(WINDOW_UPDATE, 0, 0, size)];
        frames := frames + [FrameBytes(WINDOW_UPDATE, 0, f.stream, size)];
      }
      var unpadded := RemovePadding(f.flags, f.payload);
      if unpadded.BadPadding? {
        return Some(MalformedPadding);
      }
      if partialRequest.None? || partialRequest.value.streamId != f.stream {
        return Some(UnknownStream);
      }
      var partial := partialRequest.value;
      if |partial.body| + |unpadded.data| > maxBody {
        return Some(BodyTooLarge);
      }
      partialRequest := Some(partial.(body := partial.body + unpadded.data));
      if Has(f.flags, END_STREAM) {
        var request := partialRequest.value;
        partialRequest := None;
        var expected := ContentLength(request);
        if expected.Err? {
          return Some(BadRequest(expected.error));
        }
        if expected.value.Some? && expected.value.value != |request.body| {
          return Some(LengthMismatch);
        }
        error := QueueRequest(request);
      } else {
        return None;
      }
    }

    // ---------- connection frames ----------

    method HandleSettings(payload: seq<byte>) returns (error: Option<H2Error>)
      requires Valid() && |payload| % 6 == 0
      modifies this
      ensures Valid() && rx == old(rx)
      ensures Outcome(Core(), error) == ApplySettings(old(Core()), payload)
    {
      hide FromBe32, Clamp;
      var i := 0;
      assert payload[0..] == payload;
      while i + 6 <= |payload|
        invariant 0 <= i <= |payload| && Valid() && rx == old(rx)
        invariant ApplySettings(old(Core()), payload) == ApplySettings(Core(), payload[i..])
        decreases |payload| - i
      {
        ghost var rest := payload[i..];
        assert rest[6..] == payload[i + 6..];
        var id := payload[i] as nat * 256 + payload[i + 1];
        var value := FromBe32(payload[i + 2], payload[i + 3], payload[i + 4], payload[i + 5]);
        if id == 4 {
          if value > 0x7fff_ffff {
            return Some(InvalidWindow);
          }
          var delta := value - peerInitialWindow;
          peerInitialWindow := value;
          sendWindow := Clamp(sendWindow + delta);
        } else if id == 5 {
          if value < DEFAULT_MAX_FRAME || value > MAX_FRAME_SIZE {
            return Some(InvalidFrameSize);
          }
          maxFrameSize := value;
        }
        i := i + 6;
      }
      return None;
    }

    method HandleWindowUpdate(payload: seq<byte>) returns (error: Option<H2Error>)
      requires Valid()
      modifies this
      ensures Valid() && rx == old(rx)
      ensures forall f: Frame :: f.payload == payload ==>
                Outcome(Core(), error) == Http2Spec.HandleWindowUpdate(old(Core()), f)
    {
      hide FromBe32, Clamp;
      if |payload| != 4 {
        return Some(MalformedWindowUpdate);
      }
      var increment := FromBe32(payload[0], payload[1], payload[2], payload[3]) % 0x8000_0000;
      if increment == 0 {
        return Some(ZeroIncrement);
      }
      sendWindow := Clamp(sendWindow + increment);
      return None;
    }

    method HandleControl(f: Frame) returns (error: Option<H2Error>)
      requires Valid()
      modifies this
      ensures Valid() && rx == old(rx)
      ensures Outcome(Core(), error) == Http2Spec.HandleControl(old(Core()), f)
    {
      hide FrameBytes, ApplySettings, Http2Spec.HandleWindowUpdate;
      if f.ty == SETTINGS && f.stream == 0 {
        if !Has(f.flags, ACK) {
          if |f.payload| % 6 != 0 {
            return Some(MalformedSettings);
          }
          error := HandleSettings(f.payload);
          if error.None? {
            frames := frames + [FrameBytes(SETTINGS, ACK, 0, [])];
          }
        } else {
          return if f.payload != [] then Some(MalformedSettingsAck) else None;
        }
      } else if f.ty == PING && f.stream == 0 {
        if |f.payload| != 8 {
          return Some(MalformedPing);
        }
        if !Has(f.flags, ACK) {
          frames := frames + [FrameBytes(PING, ACK, 0, f.payload)];
        }
        return None;
      } else if f.ty == WINDOW_UPDATE
          && (f.stream == 0 || f.stream == (if currentStream.Some? then currentStream.value else 0)) {
        error := HandleWindowUpdate(f.payload);
      } else if f.ty == PRIORITY && |f.payload| == 5 {
        return None;
      } else if f.ty == RST_STREAM && |f.payload| == 4 {
        if partialRequest.Some? && partialRequest.value.streamId == f.stream {
          partialRequest := None;
        }
        return None;
      } else if f.ty == GOAWAY && f.stream == 0 {
        return Some(ClientGoaway);
      } else if f.ty == PUSH_PROMISE {
        return Some(PushPromise);
      } else if f.ty in {SETTINGS, PING, WINDOW_UPDATE, PRIORITY, RST_STREAM, GOAWAY} {
        return Some(InvalidStream);
      } else {
        return None;
      }
    }

    method HandleFrame(f: Frame, maxBody: nat) returns (error: Option<H2Error>)
      requires Valid() && f.stream < 0x8000_0000
      modifies this, decoder
      ensures Valid() && rx == old(rx)
      ensures Outcome(Core(), error) == Http2Spec.HandleFrame(old(Core()), f, maxBody)
    {
      hide Http2Spec.HandleData, Http2Spec.HandleHeaders, Http2Spec.HandleContinuation, Http2Spec.HandleControl;
      if partialHeaders.Some? && f.ty != CONTINUATION {
        return Some(ExpectedContinuation);
      }
      if f.ty == DATA && IsClientStream(f.stream) {
        error := HandleData(f, maxBody);
      } else if f.ty == HEADERS && IsClientStream(f.stream) && f.stream > lastStreamId {
        lastStreamId := f.stream;
        error := HandleHeaders(f, maxBody);
      } else if f.ty == CONTINUATION && f.stream != 0 {
        error := HandleContinuation(f, maxBody);
      } else {
        error := HandleControl(f);
      }
    }

    // ---------- the receive buffer ----------

    /** Appends the bytes and handles every complete frame, up to the first that fails. */
    method Feed(bytes: seq<byte>, maxBody: nat) returns (error: Option<H2Error>)
      requires Valid()
      modifies this, decoder
      ensures Valid()
      ensures Drained(Core(), rx, error) == Http2Spec.Feed(old(Core()), old(rx), bytes, maxBody)
    {
      hide Http2Spec.HandleFrame, WireLength, FrameAt;
      if |rx| + |bytes| > RX_MAX {
        return Some(BufferExceeded);
      }
      rx := rx + bytes;
      while |rx| >= FRAME_HEADER
        invariant Valid()
        invariant Drain(old(Core()), old(rx) + bytes, maxBody) == Drain(Core(), rx, maxBody)
        decreases |rx|
      {
        var length := WireLength(rx);
        if length > maxFrameSize {
          return Some(FrameTooLarge);
        }
        var end := FRAME_HEADER + length;
        if |rx| < end {
          break;
        }
        var frame := FrameAt(rx);
        rx := rx[end..];
        error := HandleFrame(frame, maxBody);
        if error.Some? {
          return;
        }
        if ready.None? && pending != [] {
          ready, pending := Some(pending[0]), pending[1..];
        }
      }
      return None;
    }

    // ---------- dispatching ----------

    method HasReady() returns (yes: bool)
      ensures yes <==> Life.Waiting(Core()) != []
    {
      return ready.Some? || pending != [];
    }

    method FinishCurrent()
      requires Valid()
      modifies this
      ensures Valid() && rx == old(rx)
      ensures Core() == Life.FinishCurrent(old(Core()))
    {
      current, currentStream := None, None;
      if pending == [] {
        ready := None;
      } else {
        ready, pending := Some(pending[0]), pending[1..];
      }
    }

    /** Hands over the oldest waiting request, if there is one. */
    method TakeReady() returns (r: Option<Request>)
      requires Valid()
      modifies this
      ensures Valid() && rx == old(rx)
      ensures var waiting := Life.Waiting(old(Core()));
              if waiting == [] then r == None && Core() == old(Core())
              else r == Some(waiting[0]) && Core() == Life.TakeReady(old(Core()))
    {
      if ready.None? && pending != [] {
        ready, pending := Some(pending[0]), pending[1..];
      }
      if ready.None? {
        return None;
      }
      r := ready;
      ready := None;
      currentStream := Some(r.value.streamId);
      current := r;
    }

    method TakeFrames() returns (out: seq<seq<byte>>)
      requires Valid()
      modifies this
      ensures Valid() && rx == old(rx)
      ensures out == old(frames) && Core() == old(Core()).(frames := [])
    {
      out := frames;
      frames := [];
    }

    /** Reserves bytes from the send window, or refuses and leaves it alone. */
    method TakeSendWindow(len: nat) returns (ok: bool)
      requires Valid()
      modifies this
      ensures Valid() && rx == old(rx)
      ensures ok <==> len <= old(sendWindow)
      ensures Core() == old(Core()).(sendWindow := old(sendWindow) - if ok then len else 0)
    {
      if len > sendWindow {
        return false;
      }
      sendWindow := sendWindow - len;
      return true;
    }

    method EnqueueGoaway(errorCode: nat)
      requires Valid() && errorCode < 0x1_0000_0000
      modifies this
      ensures Valid() && rx == old(rx)
      ensures Core() == Push(old(Core()), FrameBytes(GOAWAY, 0, 0, Be32(old(lastStreamId)) + Be32(errorCode)))
    {
      var payload := Be32(lastStreamId) + Be32(errorCode);
      frames := frames + [FrameBytes(GOAWAY, 0, 0, payload)];
    }

    method EnqueueRstStream(stream: nat, errorCode: nat)
      requires Valid() && stream < 0x1_0000_0000 && errorCode < 0x1_0000_0000
      modifies this
      ensures Valid() && rx == old(rx)
      ensures Core() == Push(old(Core()), FrameBytes(RST_STREAM, 0, stream, Be32(errorCode)))
    {
      frames := frames + [FrameBytes(RST_STREAM, 0, stream, Be32(errorCode))];
    }
  }
}
