/** Requests as any client may frame them: header blocks with padding and priority, cut into
    continuations, and bodies in padded pieces (RFC 7540 sections 6.1, 6.2 and 6.10;
    src/fastapi_mojo_rs/src/bridge/http2.rs). */
module Http2Framing {
  import opened Wrappers
  import opened Bits
  import opened Http2Frames
  import opened Http2Requests
  import opened Http2Spec
  import opened Http2Lifecycle
  import opened Http2Client
  import opened Hpack
  import opened HpackLiterals
  import opened AsciiText
  import opened Http2Announced

  // ---------- padding and priority ----------

  /** What a frame may carry besides its data. */
  datatype Extras = Extras(pad: Option<seq<byte>>, priority: Option<seq<byte>>)

  predicate GoodExtras(x: Extras) {
    && (x.pad.Some? ==> |x.pad.value| < 256)
    && (x.priority.Some? ==> |x.priority.value| == 5)
  }

  function ExtraFlags(x: Extras): byte {
    (if x.pad.Some? then 8 else 0) + if x.priority.Some? then 32 else 0
  }

  function Padded(pad: Option<seq<byte>>, data: seq<byte>): seq<byte>
    requires pad.Some? ==> |pad.value| < 256
  {
    if pad.Some? then [|pad.value|] + data + pad.value else data
  }

  function Framed(x: Extras, data: seq<byte>): seq<byte>
    requires GoodExtras(x)
  {
    Padded(x.pad, (if x.priority.Some? then x.priority.value else []) + data)
  }

  lemma WithPadding(flags: byte)
    requires !Has(flags, PADDED)
    ensures flags + 8 < 256
    ensures Has(flags + 8, PADDED) && (Has(flags + 8, PRIORITY_FLAG) <==> Has(flags, PRIORITY_FLAG))
    ensures Has(flags + 8, END_STREAM) <==> Has(flags, END_STREAM)
    ensures Has(flags + 8, END_HEADERS) <==> Has(flags, END_HEADERS)
  {
  }

  lemma WithPriority(flags: byte)
    requires !Has(flags, PRIORITY_FLAG)
    ensures flags + 32 < 256
    ensures Has(flags + 32, PRIORITY_FLAG) && (Has(flags + 32, PADDED) <==> Has(flags, PADDED))
    ensures Has(flags + 32, END_STREAM) <==> Has(flags, END_STREAM)
    ensures Has(flags + 32, END_HEADERS) <==> Has(flags, END_HEADERS)
  {
  }

  /** Flags without padding and priority, and what adding them does. */
  lemma FlagsAdd(flags: byte, x: Extras)
    requires !Has(flags, PADDED) && !Has(flags, PRIORITY_FLAG)
    ensures flags + ExtraFlags(x) < 256
    ensures var all := flags + ExtraFlags(x);
            && (Has(all, PADDED) <==> x.pad.Some?) && (Has(all, PRIORITY_FLAG) <==> x.priority.Some?)
            && (Has(all, END_STREAM) <==> Has(flags, END_STREAM))
            && (Has(all, END_HEADERS) <==> Has(flags, END_HEADERS))
  {
    hide Has;
    if x.pad.Some? {
      WithPadding(flags);
      if x.priority.Some? {
        WithPriority(flags + 8);
      }
    } else if x.priority.Some? {
      WithPriority(flags);
    }
  }

  lemma PaddedReadsBack(flags: byte, pad: Option<seq<byte>>, data: seq<byte>)
    requires pad.Some? ==> |pad.value| < 256
    requires Has(flags, PADDED) <==> pad.Some?
    ensures RemovePadding(flags, Padded(pad, data)) == Unpadded(data)
  {
    hide Has;
    if pad.Some? {
      PaddingReadsBack(flags, data, pad.value);
    }
  }

  /** Whatever five octets of priority and whatever padding a HEADERS frame carries, the
      server does the same as without them. */
  lemma ExtrasAreSkipped(h: H2, flags: byte, stream: nat, x: Extras, block: seq<byte>, maxBody: nat)
    requires GoodExtras(x) && !Has(flags, PADDED) && !Has(flags, PRIORITY_FLAG)
    ensures flags + ExtraFlags(x) < 256
    ensures HandleHeaders(h, Frame(HEADERS, flags + ExtraFlags(x), stream, Framed(x, block)), maxBody)
            == HandleHeaders(h, Frame(HEADERS, flags, stream, block), maxBody)
  {
    hide Has, ExtraFlags, DecodeHeaders, Padded, RemovePadding;
    FlagsAdd(flags, x);
    var data := (if x.priority.Some? then x.priority.value else []) + block;
    PaddedReadsBack(flags + ExtraFlags(x), x.pad, data);
    PaddedReadsBack(flags, None, block);
    assert Padded(None, block) == block by { NoPadding(block); }
    assert x.priority.Some? ==> data[5..] == block;
    assert x.priority.None? ==> data == block;
  }

  lemma NoPadding(data: seq<byte>)
    ensures Padded(None, data) == data
  {
  }

  /** Padding longer than the payload, or priority octets that are not all there, are
      refused, and nothing else of a single frame is. */
  lemma HeadersRefusedIff(h: H2, f: Frame)
    requires h.partialHeaders.None? && h.partialRequest.None? && !Has(f.flags, END_HEADERS)
    ensures HandleHeaders(h, f, 0).error.Some?
            <==> || (Has(f.flags, PADDED) && (f.payload == [] || f.payload[0] as nat >= |f.payload|))
                 || (Has(f.flags, PRIORITY_FLAG)
                     && |f.payload| < 5 + if Has(f.flags, PADDED) then 1 + f.payload[0] as nat else 0)
                 || |f.payload| > 16384 + (if Has(f.flags, PADDED) then 1 + f.payload[0] as nat else 0)
                                  + if Has(f.flags, PRIORITY_FLAG) then 5 else 0
  {
    hide Has;
  }

  // ---------- a header block in any number of frames ----------

  function MoreBlocks(stream: nat, blocks: seq<seq<byte>>): seq<byte>
    requires stream < 0x8000_0000
  {
    if blocks == [] then []
    else FrameBytes(CONTINUATION, if |blocks| == 1 then END_HEADERS else 0, stream, blocks[0])
         + MoreBlocks(stream, blocks[1..])
  }

  /** A HEADERS frame and the CONTINUATION frames after it. */
  function Opening(stream: nat, x: Extras, blocks: seq<seq<byte>>, endStream: bool): seq<byte>
    requires stream < 0x8000_0000 && GoodExtras(x) && blocks != []
  {
    FrameBytes(HEADERS, HeadFlags(|blocks| == 1, endStream) + ExtraFlags(x), stream, Framed(x, blocks[0]))
    + MoreBlocks(stream, blocks[1..])
  }

  predicate AllFit(payloads: seq<seq<byte>>, n: nat) {
    forall i :: 0 <= i < |payloads| ==> |payloads[i]| <= n && |payloads[i]| < 0x100_0000
  }

  /** The state a decoded block leaves, and what is drained after it. */
  ghost function After(o: Outcome, more: seq<byte>, maxBody: nat): Drained {
    if o.error.Some? then Drained(o.h, more, o.error) else Drain(Promote(o.h), more, maxBody)
  }

  lemma {:induction false} ContinuationsAreRead(h: H2, stream: nat, got: seq<byte>, endStream: bool,
                                               blocks: seq<seq<byte>>, more: seq<byte>, maxBody: nat)
    requires 0 < stream < 0x8000_0000 && blocks != [] && AllFit(blocks, h.maxFrameSize)
    requires h.partialHeaders == Some(HeaderPart(stream, got, endStream)) && (h.ready.None? ==> h.pending == [])
    requires |got| + |Joined(blocks)| <= HEADER_BLOCK_MAX
    ensures Drain(h, MoreBlocks(stream, blocks) + more, maxBody)
            == After(DecodeHeaders(h.(partialHeaders := None), stream, got + Joined(blocks), endStream, maxBody), more,
                     maxBody)
    decreases |blocks|
  {
    hide Drain, FrameBytes, DecodeHeaders;
    var f := Frame(CONTINUATION, if |blocks| == 1 then END_HEADERS else 0, stream, blocks[0]);
    var rest := MoreBlocks(stream, blocks[1..]);
    assert MoreBlocks(stream, blocks) + more == FrameBytes(f.ty, f.flags, stream, blocks[0]) + (rest + more);
    DrainStep(h, f, rest + more, maxBody);
    if |blocks| == 1 {
      assert blocks[1..] == [] && rest + more == more;
      assert Joined(blocks) == blocks[0] + [] == blocks[0];
    } else {
      var next := h.(partialHeaders := Some(HeaderPart(stream, got + blocks[0], endStream)));
      assert HandleFrame(h, f, maxBody) == Fine(next);
      assert next.(partialHeaders := None) == h.(partialHeaders := None);
      assert got + blocks[0] + Joined(blocks[1..]) == got + Joined(blocks);
      ContinuationsAreRead(next, stream, got + blocks[0], endStream, blocks[1..], more, maxBody);
    }
  }

  /** However a header block is cut, padded and prioritised, the server decodes the whole of
      it, and goes on with what follows. */
  lemma OpeningIsRead(h: H2, stream: nat, x: Extras, blocks: seq<seq<byte>>, endStream: bool, more: seq<byte>,
                      maxBody: nat)
    requires stream % 2 == 1 && h.lastStreamId < stream < 0x8000_0000 && GoodExtras(x) && blocks != []
    requires h.partialHeaders.None? && h.partialRequest.None? && (h.ready.None? ==> h.pending == [])
    requires AllFit([Framed(x, blocks[0])] + blocks[1..], h.maxFrameSize)
    requires |blocks| == 1 || |Joined(blocks)| <= 16384
    ensures Drain(h, Opening(stream, x, blocks, endStream) + more, maxBody)
            == After(DecodeHeaders(h.(lastStreamId := stream), stream, Joined(blocks), endStream, maxBody), more,
                     maxBody)
  {
    hide Drain, FrameBytes, DecodeHeaders, HandleHeaders, Has, ExtraFlags, Framed, HeadFlags;
    var flags, g := HeadFlags(|blocks| == 1, endStream), h.(lastStreamId := stream);
    var rest := MoreBlocks(stream, blocks[1..]);
    HeadFlagBits(|blocks| == 1, endStream);
    ExtrasAreSkipped(g, flags, stream, x, blocks[0], maxBody);
    var f := Frame(HEADERS, flags + ExtraFlags(x), stream, Framed(x, blocks[0]));
    assert ([Framed(x, blocks[0])] + blocks[1..])[0] == f.payload;
    assert Opening(stream, x, blocks, endStream) + more == FrameBytes(f.ty, f.flags, stream, f.payload) + (rest + more);
    DrainStep(h, f, rest + more, maxBody);
    assert HandleFrame(h, f, maxBody) == HandleHeaders(g, Frame(HEADERS, flags, stream, blocks[0]), maxBody);
    PlainHead(g, stream, blocks[0], |blocks| == 1, endStream, maxBody);
    if |blocks| == 1 {
      assert blocks[1..] == [] && rest + more == more;
      assert Joined(blocks) == blocks[0] + [] == blocks[0];
    } else {
      forall i | 0 <= i < |blocks[1..]| ensures |blocks[1..][i]| <= h.maxFrameSize && |blocks[1..][i]| < 0x100_0000 {
        assert blocks[1..][i] == ([Framed(x, blocks[0])] + blocks[1..])[i + 1];
      }
      var next := g.(partialHeaders := Some(HeaderPart(stream, blocks[0], endStream)));
      assert next.(partialHeaders := None) == g;
      ContinuationsAreRead(next, stream, blocks[0], endStream, blocks[1..], more, maxBody);
    }
  }

  lemma PlainHead(g: H2, stream: nat, block: seq<byte>, whole: bool, endStream: bool, maxBody: nat)
    requires g.partialHeaders.None? && g.partialRequest.None?
    ensures HandleHeaders(g, Frame(HEADERS, HeadFlags(whole, endStream), stream, block), maxBody)
            == if whole then DecodeHeaders(g, stream, block, endStream, maxBody)
               else if |block| > HEADER_BLOCK_MAX then Bad(g, HeaderBlockTooLarge)
               else Fine(g.(partialHeaders := Some(HeaderPart(stream, block, endStream))))
  {
    hide DecodeHeaders, Has, HeadFlags;
    HeadFlagBits(whole, endStream);
  }

  // ---------- a body in any number of frames ----------

  /** A piece of a body, and the padding sent with it. */
  datatype Piece = Piece(data: seq<byte>, pad: Option<seq<byte>>)

  predicate GoodPiece(p: Piece, n: nat) {
    && (p.pad.Some? ==> |p.pad.value| < 256)
    && |Padded(p.pad, p.data)| <= n && |Padded(p.pad, p.data)| < 0x100_0000
  }

  predicate GoodPieces(pieces: seq<Piece>, n: nat) {
    forall i :: 0 <= i < |pieces| ==> GoodPiece(pieces[i], n)
  }

  function DataFlags(last: bool, p: Piece): byte {
    (if last then 1 else 0) + if p.pad.Some? then 8 else 0
  }

  function BodyBytes(stream: nat, pieces: seq<Piece>, n: nat): seq<byte>
    requires stream < 0x8000_0000 && GoodPieces(pieces, n)
  {
    if pieces == [] then []
    else FrameBytes(DATA, DataFlags(|pieces| == 1, pieces[0]), stream, Padded(pieces[0].pad, pieces[0].data))
         + BodyBytes(stream, pieces[1..], n)
  }

  function BodyData(pieces: seq<Piece>): seq<byte> {
    if pieces == [] then [] else pieces[0].data + BodyData(pieces[1..])
  }

  /** A WINDOW_UPDATE frame: four octets of payload, type 8, no flags. */
  function Credit(stream: nat, size: nat): seq<byte>
    requires stream < 0x8000_0000 && size < 0x8000_0000
  {
    [0, 0, 4, 8, 0, stream / 16777216, stream / 65536 % 256, stream / 256 % 256, stream % 256]
    + [size / 16777216, size / 65536 % 256, size / 256 % 256, size % 256]
  }

  lemma CreditIs(stream: nat, size: nat)
    requires stream < 0x8000_0000 && size < 0x8000_0000
    ensures FrameBytes(WINDOW_UPDATE, 0, stream, Be32(size)) == Credit(stream, size)
  {
  }

  /** The window updates the server answers with: for the connection and for the stream, by
      all the octets of each frame, padding included. */
  function Updates(stream: nat, pieces: seq<Piece>, n: nat): seq<seq<byte>>
    requires stream < 0x8000_0000 && GoodPieces(pieces, n)
  {
    if pieces == [] then []
    else
      var size := |Padded(pieces[0].pad, pieces[0].data)|;
      (if size == 0 then []
       else [Credit(0, size), Credit(stream, size)])
      + Updates(stream, pieces[1..], n)
  }

  lemma PieceIsRead(h: H2, stream: nat, p: Piece, last: bool, n: nat, maxBody: nat)
    requires stream % 2 == 1 && stream < 0x8000_0000 && GoodPiece(p, n) && h.partialHeaders.None?
    requires h.partialRequest.Some? && h.partialRequest.value.streamId == stream
    ensures var r := h.partialRequest.value;
            var g, whole := h.(frames := h.frames + Updates(stream, [p], n)), r.(body := r.body + p.data);
            HandleFrame(h, Frame(DATA, DataFlags(last, p), stream, Padded(p.pad, p.data)), maxBody)
            == if |r.body| + |p.data| > maxBody then Bad(g, BodyTooLarge)
               else if last then FinishRequest(g.(partialRequest := None), whole)
               else Fine(g.(partialRequest := Some(whole)))
  {
    hide FrameBytes, Be32, FinishRequest, Padded, RemovePadding, Credit;
    var f := Frame(DATA, DataFlags(last, p), stream, Padded(p.pad, p.data));
    PaddedReadsBack(f.flags, p.pad, p.data);
    assert [p][1..] == [];
    assert h.frames + [] == h.frames;
    assert Updates(stream, [], n) == [];
    assert |f.payload| % 0x1_0000_0000 == |f.payload|;
    assert WindowUpdates(h, f) == h.(frames := h.frames + Updates(stream, [p], n)) by {
      if f.payload != [] {
        var size := Be32(|f.payload|);
        CreditIs(0, |f.payload|);
        CreditIs(stream, |f.payload|);
        var one, two := FrameBytes(WINDOW_UPDATE, 0, 0, size), FrameBytes(WINDOW_UPDATE, 0, stream, size);
        assert h.frames + [one] + [two] == h.frames + ([one, two] + []);
      }
    }
  }

  lemma UpdatesCons(stream: nat, pieces: seq<Piece>, n: nat)
    requires stream < 0x8000_0000 && pieces != [] && GoodPieces(pieces, n)
    ensures Updates(stream, pieces, n) == Updates(stream, [pieces[0]], n) + Updates(stream, pieces[1..], n)
  {
    hide FrameBytes, Be32, Padded;
    assert [pieces[0]][1..] == [];
    assert Updates(stream, [], n) == [];
  }

  /** A body in any pieces within the limit is joined and the request finished. */
  lemma {:induction false} BodyIsRead(h: H2, r: Request, pieces: seq<Piece>, n: nat, more: seq<byte>, maxBody: nat)
    requires r.streamId % 2 == 1 && r.streamId < 0x8000_0000 && h.partialHeaders.None? && h.partialRequest == Some(r)
    requires (h.ready.None? ==> h.pending == []) && pieces != [] && n <= h.maxFrameSize && GoodPieces(pieces, n)
    requires |r.body| + |BodyData(pieces)| <= maxBody
    ensures var g := h.(partialRequest := None, frames := h.frames + Updates(r.streamId, pieces, n));
            Drain(h, BodyBytes(r.streamId, pieces, n) + more, maxBody)
            == After(FinishRequest(g, r.(body := r.body + BodyData(pieces))), more, maxBody)
    decreases |pieces|
  {
    hide Drain, FrameBytes, FinishRequest, Padded, Be32, HandleFrame, Updates, DataFlags;
    var p, rest := pieces[0], BodyBytes(r.streamId, pieces[1..], n);
    var f := Frame(DATA, DataFlags(|pieces| == 1, p), r.streamId, Padded(p.pad, p.data));
    assert BodyBytes(r.streamId, pieces, n) + more == FrameBytes(f.ty, f.flags, f.stream, f.payload) + (rest + more);
    DrainStep(h, f, rest + more, maxBody);
    PieceIsRead(h, r.streamId, p, |pieces| == 1, n, maxBody);
    UpdatesCons(r.streamId, pieces, n);
    if |pieces| == 1 {
      assert pieces[1..] == [] && rest + more == more && pieces == [p];
      assert BodyData(pieces) == p.data + [] == p.data;
    } else {
      var r' := r.(body := r.body + p.data);
      var next := h.(frames := h.frames + Updates(r.streamId, [p], n), partialRequest := Some(r'));
      assert r.body + p.data + BodyData(pieces[1..]) == r.body + BodyData(pieces);
      assert next.frames + Updates(r.streamId, pieces[1..], n) == h.frames + Updates(r.streamId, pieces, n);
      BodyIsRead(next, r', pieces[1..], n, more, maxBody);
    }
  }

  // ---------- whole requests ----------

  /** The header block is decoded to fields that announce r. */
  ghost predicate Carries(h: H2, block: seq<byte>, t: Table, fields: seq<Field>, k: nat, r: Request) {
    && ReadBlock(h.table, block, true, []) == Block(t, Ok(fields)) && |fields| <= 256
    && k <= |fields| && Announces(r.streamId, fields, k, r)
  }

  lemma BlockAnnounces(h: H2, block: seq<byte>, t: Table, fields: seq<Field>, k: nat, r: Request, endStream: bool,
                       maxBody: nat)
    requires Carries(h, block, t, fields, k, r)
    ensures DecodeHeaders(h, r.streamId, block, endStream, maxBody)
            == StartRequest(h.(table := t), r, endStream, maxBody)
  {
    hide ReadBlock, AddHeaders, MakeRequest, StartRequest, Announces;
    RequestMeans(r.streamId, fields, r);
  }

  /** A request with any fields, in any framing: its header block padded, prioritised and cut
      anywhere, its body in any padded pieces.  If the fields announce it and the announced
      length, if any, is that of the body, the server takes exactly this request with exactly
      this body, and answers each piece with its window updates. */
  lemma AnyRequestIsTaken(h: H2, x: Extras, blocks: seq<seq<byte>>, pieces: seq<Piece>, n: nat, t: Table,
                          fields: seq<Field>, k: nat, r: Request, more: seq<byte>, maxBody: nat)
    requires r.streamId % 2 == 1 && h.lastStreamId < r.streamId < 0x8000_0000 && GoodExtras(x) && blocks != []
    requires h.partialHeaders.None? && h.partialRequest.None? && (h.ready.None? ==> h.pending == [])
    requires AllFit([Framed(x, blocks[0])] + blocks[1..], h.maxFrameSize)
    requires n <= h.maxFrameSize && GoodPieces(pieces, n)
    requires |blocks| == 1 || |Joined(blocks)| <= 16384
    requires Carries(h, Joined(blocks), t, fields, k, r) && |BodyData(pieces)| <= maxBody
    requires ContentLength(r) == Ok(None) || ContentLength(r) == Ok(Some(|BodyData(pieces)|))
    ensures var g := h.(table := t, lastStreamId := r.streamId,
                        frames := h.frames + Updates(r.streamId, pieces, n));
            Drain(h, Opening(r.streamId, x, blocks, pieces == []) + (BodyBytes(r.streamId, pieces, n) + more), maxBody)
            == After(QueueRequest(g, r.(body := BodyData(pieces))), more, maxBody)
  {
    hide Drain, FrameBytes, QueueRequest, AllFit, GoodPieces, ContentLength, Opening, DecodeHeaders,
         Announces, ReadBlock;
    var g := h.(lastStreamId := r.streamId);
    var rest := BodyBytes(r.streamId, pieces, n) + more;
    OpeningIsRead(h, r.streamId, x, blocks, pieces == [], rest, maxBody);
    BlockAnnounces(g, Joined(blocks), t, fields, k, r, pieces == [], maxBody);
    assert r.body == [] by { NoBodyYet(r.streamId, fields, k, r); }
    if pieces == [] {
      assert rest == more && h.frames + [] == h.frames;
      assert r.(body := BodyData(pieces)) == r;
    } else {
      var g' := g.(table := t, partialRequest := Some(r));
      assert r.body + BodyData(pieces) == BodyData(pieces);
      SameLength(r, BodyData(pieces));
      BodyIsRead(g', r, pieces, n, more, maxBody);
      assert g'.(partialRequest := None) == g.(table := t);
    }
  }

  lemma NoBodyYet(stream: nat, fields: seq<Field>, k: nat, r: Request)
    requires k <= |fields| && Announces(stream, fields, k, r)
    ensures r.body == []
  {
  }

  lemma SameLength(r: Request, body: seq<byte>)
    ensures ContentLength(r.(body := body)) == ContentLength(r)
  {
  }

  // ---------- what is refused ----------

  // ---------- limits ----------

  lemma FrameErrors(h: H2, f: Frame, maxBody: nat)
    requires f.stream < 0x8000_0000
    ensures HandleFrame(h, f, maxBody).error != Some(BufferExceeded)
    ensures HandleFrame(h, f, maxBody).error != Some(FrameTooLarge)
  {
    hide Has, ReadBlock, AddHeaders, MakeRequest, ContentLength, Be32, RemovePadding;
    if f.ty == SETTINGS {
      SettingsErrors(h, f.payload);
    }
  }

  lemma {:induction false} SettingsErrors(h: H2, payload: seq<byte>)
    ensures ApplySettings(h, payload).error in {None, Some(InvalidWindow), Some(InvalidFrameSize)}
    decreases |payload|
  {
    if |payload| >= 6 {
      var id := payload[0] as nat * 256 + payload[1];
      var value := FromBe32(payload[2], payload[3], payload[4], payload[5]);
      hide FromBe32, Clamp;
      SettingsErrors(if id == 4 then h.(peerInitialWindow := value,
                                        sendWindow := Clamp(h.sendWindow + value - h.peerInitialWindow))
                     else if id == 5 then h.(maxFrameSize := value) else h, payload[6..]);
    }
  }

  lemma {:induction false} NeverExceeded(h: H2, rx: seq<byte>, maxBody: nat)
    ensures Drain(h, rx, maxBody).error != Some(BufferExceeded)
    decreases |rx|
  {
    hide HandleFrame, WireLength, FrameAt, Promote;
    if |rx| >= 9 && WireLength(rx) <= h.maxFrameSize && |rx| >= 9 + WireLength(rx) {
      FrameErrors(h, FrameAt(rx), maxBody);
      var o := HandleFrame(h, FrameAt(rx), maxBody);
      if o.error.None? {
        NeverExceeded(Promote(o.h), rx[9 + WireLength(rx)..], maxBody);
      }
    }
  }

  /** The buffer takes 2 MiB, and what would be more is refused before any of it is read. */
  lemma BufferExceededIff(h: H2, rx: seq<byte>, bytes: seq<byte>, maxBody: nat)
    ensures var d := Feed(h, rx, bytes, maxBody);
            && (d.error == Some(BufferExceeded) <==> |rx| + |bytes| > 2097152)
            && (|rx| + |bytes| > 2097152 ==> d.h == h && d.rx == rx)
  {
    hide Drain;
    NeverExceeded(h, rx + bytes, maxBody);
  }

  /** A frame longer than the peer's limit is refused as soon as its nine octets are there. */
  lemma LongFrameIsRefused(h: H2, rx: seq<byte>, maxBody: nat)
    requires |rx| >= 9 && rx[0] as nat * 65536 + rx[1] as nat * 256 + rx[2] as nat > h.maxFrameSize
    ensures Drain(h, rx, maxBody) == Drained(h, rx, Some(FrameTooLarge))
  {
  }

  /** More than 256 fields are refused, and so is a block that grows beyond 16 KiB. */
  lemma LongHeadersAreRefused(h: H2, stream: nat, block: seq<byte>, t: Table, fields: seq<Field>, endStream: bool,
                              f: Frame, maxBody: nat)
    ensures ReadBlock(h.table, block, true, []) == Block(t, Ok(fields)) && |fields| > 256 ==>
              DecodeHeaders(h, stream, block, endStream, maxBody) == Bad(h.(table := t), HeaderListTooLarge)
    ensures h.partialHeaders == Some(HeaderPart(f.stream, block, endStream)) && |block| + |f.payload| > 16384 ==>
              HandleContinuation(h, f, maxBody) == Bad(h, HeaderBlockTooLarge)
  {
    hide ReadBlock, AddHeaders, MakeRequest, Has;
  }

  /** A request finds room unless one is ready and a hundred more are waiting. */
  lemma QueueIsFullIff(h: H2, r: Request)
    ensures QueueRequest(h, r).error.Some? <==> h.ready.Some? && |h.pending| >= 100
    ensures QueueRequest(h, r).error.None? ==>
              (if h.ready.None? then [r] + h.pending else [h.ready.value] + h.pending + [r])
              == var g := QueueRequest(h, r).h; [g.ready.value] + g.pending
    ensures QueueRequest(h, r).error.None? ==> QueueRequest(h, r).h.ready.Some?
  {
  }

  /** Data for any other stream than that of the request under construction is refused, and
      concerns no request. */
  lemma StrayDataIsRefused(h: H2, f: Frame, maxBody: nat)
    requires h.partialHeaders.None? && f.ty == 0 && f.stream % 2 == 1 && f.stream < 0x8000_0000
    requires h.partialRequest.None? || h.partialRequest.value.streamId != f.stream
    ensures var o := HandleFrame(h, f, maxBody); o.error.Some? && o.h == h.(frames := o.h.frames)
  {
    hide FrameBytes, Be32;
  }

  /** A new stream while a request is under construction is refused. */
  lemma OverlapIsRefused(h: H2, f: Frame, maxBody: nat)
    requires h.partialHeaders.None? && h.partialRequest.Some?
    requires f.ty == 1 && f.stream % 2 == 1 && h.lastStreamId < f.stream < 0x8000_0000
    ensures HandleFrame(h, f, maxBody) == Bad(h.(lastStreamId := f.stream), StreamOverlap)
  {
    hide DecodeHeaders;
  }

  /** At its end a body is accepted exactly if it is as long as announced and there is room. */
  lemma FinishedIff(h: H2, r: Request)
    ensures FinishRequest(h, r).error.None?
            <==> && (ContentLength(r) == Ok(None) || ContentLength(r) == Ok(Some(|r.body|)))
                 && (h.ready.None? || |h.pending| < 100)
  {
    hide ContentLength;
    match ContentLength(r)
    case Err(_) =>
    case Ok(None) =>
    case Ok(Some(n)) =>
  }

  // ---------- a request as a browser frames it ----------

  const BROWSER_GET: seq<byte> := [0, 0, 8, 1, 0x25, 0, 0, 0, 1, 0, 0, 0, 0, 15, 0x82, 0x87, 0x84]

  function Get(): Request {
    Request(1, Ascii("GET"), Ascii("/"), [], [], [], [])
  }

  lemma BrowserFields(t: Table)
    ensures ReadBlock(t, [0x82, 0x87, 0x84], true, [])
            == Block(t, Ok([Field(Ascii(":method"), Ascii("GET")), Field(Ascii(":scheme"), Ascii("https")),
                            Field(Ascii(":path"), Ascii("/"))]))
  {
    hide ReadBlock, Ascii;
    var rs := [Indexed(2), Indexed(7), Indexed(4)];
    IndexedByte(2);
    IndexedByte(7);
    IndexedByte(4);
    assert rs[1..] == [Indexed(7), Indexed(4)] && rs[1..][1..] == [Indexed(4)] && rs[1..][1..][1..] == [];
    assert BlockBytes(rs) == [0x82, 0x87, 0x84];
    StatelessBlock(t, rs);
    assert FieldsOf(rs) == [FieldOf(rs[0]), FieldOf(rs[1]), FieldOf(rs[2])];
  }

  lemma BrowserAnnounces()
    ensures Announces(1, [Field(Ascii(":method"), Ascii("GET")), Field(Ascii(":scheme"), Ascii("https")),
                          Field(Ascii(":path"), Ascii("/"))], 3, Get())
  {
    var fields := [Field(Ascii(":method"), Ascii("GET")), Field(Ascii(":scheme"), Ascii("https")),
                   Field(Ascii(":path"), Ascii("/"))];
    hide Ascii;
    BrowserText();
    DifferentNames();
    assert fields[..3] == fields && fields[3..] == [];
    assert fields[..2] == [fields[0], fields[1]] && fields[..2][..1] == [fields[0]] && fields[..1] == [fields[0]];
    assert ValueOf([], Ascii(":authority")) == [];
    assert [fields[0]][..0] == [];
    assert ValueOf([fields[0]], Ascii(":method")) == Ascii("GET");
    assert ValueOf([fields[0]], Ascii(":authority")) == [];
    assert ValueOf(fields[..2], Ascii(":method")) == Ascii("GET");
    assert ValueOf(fields[..2], Ascii(":authority")) == [];
    assert ValueOf(fields[..2], Ascii(":scheme")) == Ascii("https");
    assert forall i, j :: 0 <= i < j < 3 ==> fields[i].name != fields[j].name;
  }

  lemma BrowserText()
    ensures PlainText(Ascii("GET")) && |Ascii("GET")| == 3 && PlainText(Ascii("https")) && |Ascii("https")| == 5
    ensures Ascii("/") == [47]
  {
  }

  /** A HEADERS frame with priority: the request is taken. */
  lemma BrowserGetIsTaken(maxBody: nat)
    ensures var d := Drain(NewH2(), BROWSER_GET, maxBody);
            d.error.None? && d.rx == [] && Waiting(d.h) == [Get()] && d.h.accepted == [Get()]
  {
    hide Drain, ReadBlock, Announces, QueueRequest, AllFit, Ascii, SettingsPayload;
    var x := Extras(None, Some([0, 0, 0, 0, 15]));
    var block: seq<byte> := [0x82, 0x87, 0x84];
    var fields := [Field(Ascii(":method"), Ascii("GET")), Field(Ascii(":scheme"), Ascii("https")),
                   Field(Ascii(":path"), Ascii("/"))];
    var h := NewH2();
    BrowserFields(h.table);
    BrowserAnnounces();
    BrowserBytes();
    assert Joined([block]) == block by { assert [block][1..] == []; assert block + [] == block; }
    assert [block][1..] == [];
    AllFitOne(Framed(x, block), h.maxFrameSize);
    assert ContentLength(Get()) == Ok(None) by { NoLength(); }
    AnyRequestIsTaken(h, x, [block], [], 0, h.table, fields, 3, Get(), [], maxBody);
    var g := h.(table := h.table, lastStreamId := 1, frames := h.frames + Updates(1, [], 0));
    assert Get().(body := BodyData([])) == Get();
    QueuedFirst(g, Get(), maxBody);
  }

  lemma NoLength()
    ensures ContentLength(Get()) == Ok(None)
  {
  }

  lemma AllFitOne(payload: seq<byte>, n: nat)
    requires |payload| <= n && |payload| < 0x100_0000
    ensures AllFit([payload] + [], n)
  {
  }

  lemma BrowserBytes()
    ensures Opening(1, Extras(None, Some([0, 0, 0, 0, 15])), [[0x82, 0x87, 0x84]], true)
            + (BodyBytes(1, [], 0) + []) == BROWSER_GET
  {
    assert [[0x82, 0x87, 0x84]][1..] == [];
    assert FrameBytes(1, 0x25, 1, [0, 0, 0, 0, 15, 0x82, 0x87, 0x84]) == BROWSER_GET;
  }

  lemma QueuedFirst(h: H2, r: Request, maxBody: nat)
    requires h.ready.None? && h.pending == [] && h.accepted == []
    ensures var d := After(QueueRequest(h, r), [], maxBody);
            d.error.None? && d.rx == [] && Waiting(d.h) == [r] && d.h.accepted == [r]
  {
    hide Drain;
    NothingDrained(QueueRequest(h, r).h, maxBody);
  }
}
