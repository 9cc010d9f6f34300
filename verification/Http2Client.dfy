/** The tool's HTTP/2 client and what the server makes of its requests
    (src/fmtool/src/http2.rs). */
module Http2Client {
  import opened Wrappers
  import opened Bits
  import opened AsciiText
  import opened Decimals
  import opened Texts
  import opened HpackPrimitives
  import opened Hpack
  import opened HpackLiterals
  import opened Http2Frames
  import opened Http2Requests
  import opened Http2Spec
  import opened Http2Lifecycle

  datatype ClientRequest = ClientRequest(
    stream: nat,
    method_: seq<byte>,
    path: seq<byte>,
    query: Option<seq<byte>>,
    authority: seq<byte>,
    body: Option<seq<byte>>)

  /** The path as the caller gives it, query included. */
  function Target(c: ClientRequest): seq<byte> {
    c.path + if c.query.Some? then [63] + c.query.value else []
  }

  /** The limits within which the server promises to take a request. */
  predicate Sendable(c: ClientRequest) {
    && c.stream % 2 == 1 && c.stream < 0x8000_0000
    && |c.method_| <= 15 && CleanText(c.method_)
    && c.path != [] && c.path[0] == 47 && 63 !in c.path
    && |Target(c)| <= 1023 && CleanText(Target(c))
    && |c.authority| <= MAX_FIELD && CleanText(c.authority)
    && (c.body.Some? ==> |c.body.value| <= DEFAULT_MAX_FRAME)
  }

  // ---------- the header block ----------

  function Opening(method_: seq<byte>, target: seq<byte>, authority: seq<byte>): (rs: seq<Representation>)
    ensures |rs| == 4
  {
    [if method_ == Ascii("GET") then Indexed(2) else if method_ == Ascii("POST") then Indexed(3) else Named(2, method_),
     if target == Ascii("/") then Indexed(4) else Named(4, target),
     Indexed(6),
     Named(1, authority)]
  }

  function Closing(length: Option<nat>): seq<Representation> {
    if length.None? then []
    else [Named(28, Decimal(length.value)), Named(31, Ascii("application/json"))]
  }

  function BodyLength(c: ClientRequest): Option<nat> {
    if c.body.Some? then Some(|c.body.value|) else None
  }

  function HeaderBlock(c: ClientRequest): seq<byte> {
    BlockBytes(Opening(c.method_, Target(c), c.authority) + Closing(BodyLength(c)))
  }

  /** The two pseudo-headers that have indexed forms. */
  method BuildStart(method_: seq<byte>, target: seq<byte>) returns (block: seq<byte>)
    ensures block == RepresentationBytes(Opening(method_, target, [])[0])
            + RepresentationBytes(Opening(method_, target, [])[1])
  {
    hide RepresentationBytes, Ascii;
    IndexedByte(if method_ == Ascii("GET") then 2 else 3);
    IndexedByte(4);
    if method_ == Ascii("GET") {
      block := [0x82];
    } else if method_ == Ascii("POST") {
      block := [0x83];
    } else {
      block := EncodeIndexedName(2, method_);
    }
    if target == Ascii("/") {
      block := block + [0x84];
    } else {
      var field := EncodeIndexedName(4, target);
      block := block + field;
    }
  }

  method BuildHeaderBlock(method_: seq<byte>, target: seq<byte>, authority: seq<byte>, length: Option<nat>)
    returns (block: seq<byte>)
    ensures block == BlockBytes(Opening(method_, target, authority) + Closing(length))
  {
    hide RepresentationBytes, BlockBytes, Ascii, Decimal;
    ghost var rs, tail := Opening(method_, target, authority), Closing(length);
    block := BuildStart(method_, target);
    block := block + [0x86];
    IndexedByte(6);
    var field := EncodeIndexedName(1, authority);
    block := block + field;
    BlockOfFour(rs);
    assert rs + [] == rs;
    if length.Some? {
      var first := EncodeIndexedName(28, Decimal(length.value));
      var second := EncodeIndexedName(31, Ascii("application/json"));
      block := block + first + second;
      BlockBytesSnoc(rs, tail[0]);
      BlockBytesSnoc(rs + [tail[0]], tail[1]);
      assert rs + tail == rs + [tail[0]] + [tail[1]];
    }
  }

  lemma BlockOfFour(rs: seq<Representation>)
    requires |rs| == 4
    ensures BlockBytes(rs) == RepresentationBytes(rs[0]) + RepresentationBytes(rs[1]) + RepresentationBytes(rs[2])
                              + RepresentationBytes(rs[3])
  {
    hide RepresentationBytes;
    BlockBytesSnoc([], rs[0]);
    BlockBytesSnoc([rs[0]], rs[1]);
    BlockBytesSnoc([rs[0], rs[1]], rs[2]);
    BlockBytesSnoc([rs[0], rs[1], rs[2]], rs[3]);
    assert rs == [rs[0], rs[1], rs[2]] + [rs[3]];
  }

  // ---------- decoding it ----------

  /** The fields the server sees. */
  function RequestFields(c: ClientRequest): seq<Field> {
    [Field(Ascii(":method"), c.method_), Field(Ascii(":path"), Target(c)), Field(Ascii(":scheme"), Ascii("http")),
     Field(Ascii(":authority"), c.authority)] + BodyFields(c)
  }

  function BodyFields(c: ClientRequest): seq<Field> {
    if c.body.None? then []
    else [Field(Ascii("content-length"), Decimal(|c.body.value|)),
        Field(Ascii("content-type"), Ascii("application/json"))]
  }

  lemma SmallNumber(c: ClientRequest)
    requires Sendable(c) && c.body.Some?
    ensures |Decimal(|c.body.value|)| <= 5
  {
    assert TenTo(5) == 100000;
    DecimalLength(|c.body.value|, 5, 100000);
  }

  lemma ClosingFields(c: ClientRequest)
    requires Sendable(c)
    ensures var rs := Closing(BodyLength(c));
            (forall i :: 0 <= i < |rs| ==> Stateless(rs[i])) && FieldsOf(rs) == BodyFields(c)
  {
    hide Ascii, Decimal, CleanText;
    if c.body.Some? {
      SmallNumber(c);
      var rs := Closing(BodyLength(c));
      FieldsOfCons(rs[1], []);
      FieldsOfCons(rs[0], [rs[1]]);
      assert [rs[1]] + [] == [rs[1]] && [rs[0]] + [rs[1]] == rs;
    }
  }

  lemma OpeningFields(method_: seq<byte>, target: seq<byte>, authority: seq<byte>)
    requires |method_| <= 15 && |target| <= 1023 && |authority| <= MAX_FIELD
    ensures var rs := Opening(method_, target, authority);
            && (forall i :: 0 <= i < 4 ==> Stateless(rs[i]))
            && FieldOf(rs[0]) == Field(Ascii(":method"), method_) && FieldOf(rs[1]) == Field(Ascii(":path"), target)
            && FieldOf(rs[2]) == Field(Ascii(":scheme"), Ascii("http"))
                && FieldOf(rs[3]) == Field(Ascii(":authority"), authority)
  {
    hide Ascii;
  }

  lemma BlockIsStateless(c: ClientRequest)
    requires Sendable(c)
    ensures var rs := Opening(c.method_, Target(c), c.authority) + Closing(BodyLength(c));
            (forall i :: 0 <= i < |rs| ==> Stateless(rs[i])) && FieldsOf(rs) == RequestFields(c)
  {
    hide Ascii, CleanText, Closing, BodyFields, FieldsOf, FieldOf, Target, Opening, Stateless, StaticEntry;
    var opening, closing := Opening(c.method_, Target(c), c.authority), Closing(BodyLength(c));
    OpeningFields(c.method_, Target(c), c.authority);
    ClosingFields(c);
    FieldsOfCons(opening[3], closing);
    FieldsOfCons(opening[2], [opening[3]] + closing);
    FieldsOfCons(opening[1], [opening[2]] + ([opening[3]] + closing));
    FieldsOfCons(opening[0], [opening[1]] + ([opening[2]] + ([opening[3]] + closing)));
    assert opening + closing == [opening[0]] + ([opening[1]] + ([opening[2]] + ([opening[3]] + closing)));
  }

  lemma HeaderBlockReadsBack(t: Table, c: ClientRequest)
    requires Sendable(c)
    ensures ReadBlock(t, HeaderBlock(c), true, []) == Block(t, Ok(RequestFields(c)))
  {
    hide ReadBlock, BlockBytes, FieldsOf, RequestFields, Sendable, Opening, Closing, Stateless;
    BlockIsStateless(c);
    StatelessBlock(t, Opening(c.method_, Target(c), c.authority) + Closing(BodyLength(c)));
  }

  // ---------- the request the server builds ----------

  function Received(c: ClientRequest): Request {
    Request(c.stream, c.method_, c.path, if c.query.Some? then c.query.value else [], c.authority, BodyFields(c),
            if c.body.Some? then c.body.value else [])
  }

  lemma AddHeadersCons(h: Head, f: Field, fields: seq<Field>)
    requires AddHeader(h, f).Ok?
    ensures AddHeaders(h, [f] + fields) == AddHeaders(AddHeader(h, f).value, fields)
  {
    assert ([f] + fields)[1..] == fields;
  }

  lemma PseudoNames()
    ensures Ascii(":method") != Ascii(":path") && Ascii(":method") != Ascii(":scheme")
            && Ascii(":method") != Ascii(":authority")
    ensures Ascii(":path") != Ascii(":scheme") && Ascii(":path") != Ascii(":authority")
            && Ascii(":scheme") != Ascii(":authority")
    ensures IsPseudo(Ascii(":method")) && IsPseudo(Ascii(":path")) && IsPseudo(Ascii(":scheme"))
            && IsPseudo(Ascii(":authority"))
    ensures CleanText(Ascii(":method")) && CleanText(Ascii(":path")) && CleanText(Ascii(":scheme"))
            && CleanText(Ascii(":authority"))
    ensures CleanText(Ascii("http"))
  {
    assert Ascii(":method")[1] != Ascii(":scheme")[1];
  }

  lemma BodyNames()
    ensures CleanText(Ascii("content-length")) && CleanText(Ascii("content-type"))
            && CleanText(Ascii("application/json"))
    ensures !HasUpper(Ascii("content-length")) && !HasUpper(Ascii("content-type"))
    ensures !IsPseudo(Ascii("content-length")) && !IsPseudo(Ascii("content-type"))
    ensures !ConnectionSpecific(Ascii("content-length")) && !ConnectionSpecific(Ascii("content-type"))
  {
  }

  lemma DigitsAreClean(s: seq<byte>)
    requires AllDigits(s)
    ensures CleanText(s)
  {
  }

  lemma BodyHeadersAdded(h: Head, c: ClientRequest)
    requires Sendable(c) && h.headers == []
    ensures AddHeaders(h, BodyFields(c)) == Ok(h.(headers := BodyFields(c)))
  {
    hide Ascii, Decimal, CleanText, HasUpper, IsPseudo, ConnectionSpecific;
    if c.body.Some? {
      SmallNumber(c);
      BodyNames();
      DigitsAreClean(Decimal(|c.body.value|));
      var fields := BodyFields(c);
      AddHeadersCons(h, fields[0], [fields[1]]);
      AddHeadersCons(AddHeader(h, fields[0]).value, fields[1], []);
      assert [fields[0]] + [fields[1]] == fields && [fields[1]] + [] == [fields[1]];
      assert h.headers + [fields[0]] + [fields[1]] == fields;
    } else {
      assert h == h.(headers := []);
    }
  }

  lemma HeadersAdded(c: ClientRequest)
    requires Sendable(c)
    ensures AddHeaders(Head([], [], [], [], []), RequestFields(c))
            == Ok(Head(c.method_, Target(c), c.authority, Ascii("http"), BodyFields(c)))
  {
    hide Ascii, CleanText, HasUpper, IsPseudo, BodyFields, Target, AddHeaders;
    PseudoNames();
    var f, rest := RequestFields(c), BodyFields(c);
    var h0 := Head([], [], [], [], []);
    AddHeadersCons(h0, f[0], [f[1]] + ([f[2]] + ([f[3]] + rest)));
    var h1 := AddHeader(h0, f[0]).value;
    AddHeadersCons(h1, f[1], [f[2]] + ([f[3]] + rest));
    var h2 := AddHeader(h1, f[1]).value;
    AddHeadersCons(h2, f[2], [f[3]] + rest);
    var h3 := AddHeader(h2, f[2]).value;
    AddHeadersCons(h3, f[3], rest);
    BodyHeadersAdded(AddHeader(h3, f[3]).value, c);
    assert f == [f[0]] + ([f[1]] + ([f[2]] + ([f[3]] + rest)));
  }

  lemma RequestMade(c: ClientRequest)
    requires Sendable(c)
    ensures MakeRequest(c.stream, Head(c.method_, Target(c), c.authority, Ascii("http"), BodyFields(c)))
            == Ok(Received(c).(body := []))
  {
    hide Ascii, CleanText, BodyFields;
    var q := Find(Target(c), QUESTION_MARK);
    FindAfter(c.path, QUESTION_MARK, if c.query.Some? then [63] + c.query.value else []);
    assert Target(c)[..q] == c.path;
    if c.query.Some? {
      assert Target(c)[q + 1..] == c.query.value;
    }
  }

  lemma LengthAnnounced(c: ClientRequest, body: seq<byte>)
    requires Sendable(c)
    ensures ContentLength(Received(c).(body := body)) == Ok(if c.body.Some? then Some(|c.body.value|) else None)
  {
    hide Ascii, Decimal, DecimalValue, Lowered, CleanText;
    if c.body.Some? {
      DecimalReadsBack(|c.body.value|);
    }
  }

  /** The state once the header block is decoded. */
  function AfterHead(h: H2, c: ClientRequest): Outcome {
    if c.body.None? then QueueRequest(h, Received(c)) else Fine(h.(partialRequest := Some(Received(c).(body := []))))
  }

  lemma BlockStartsRequest(h: H2, c: ClientRequest, maxBody: nat)
    requires Sendable(c) && |Received(c).body| <= maxBody
    ensures DecodeHeaders(h, c.stream, HeaderBlock(c), c.body.None?, maxBody) == AfterHead(h, c)
  {
    hide ReadBlock, HeaderBlock, Ascii, AddHeaders, MakeRequest, ContentLength, CleanText, Target, BodyFields,
         QueueRequest;
    HeaderBlockReadsBack(h.table, c);
    HeadersAdded(c);
    RequestMade(c);
    LengthAnnounced(c, []);
    FewFields(c);
    assert h.(table := h.table) == h;
  }

  lemma FewFields(c: ClientRequest)
    ensures |RequestFields(c)| <= 6
  {
  }

  // ---------- on the wire ----------

  function HeadFlags(endHeaders: bool, endStream: bool): byte {
    (if endHeaders then END_HEADERS else 0) + if endStream then END_STREAM else 0
  }

  /** The header block as one frame, or cut in two. */
  function HeadBytes(c: ClientRequest, cut: Option<nat>): seq<byte>
    requires c.stream < 0x8000_0000 && (cut.Some? ==> cut.value <= |HeaderBlock(c)|)
  {
    var block, end := HeaderBlock(c), c.body.None?;
    match cut
    case None => FrameBytes(HEADERS, HeadFlags(true, end), c.stream, block)
    case Some(k) =>
      FrameBytes(HEADERS, HeadFlags(false, end), c.stream, block[..k])
      + FrameBytes(CONTINUATION, END_HEADERS, c.stream, block[k..])
  }

  function Wire(c: ClientRequest, cut: Option<nat>): seq<byte>
    requires c.stream < 0x8000_0000 && (cut.Some? ==> cut.value <= |HeaderBlock(c)|)
  {
    HeadBytes(c, cut) + if c.body.Some? then FrameBytes(DATA, END_STREAM, c.stream, c.body.value) else []
  }

  /** Sends a request with a whole header block. */
  method SendRequest(c: ClientRequest) returns (sent: seq<byte>)
    requires c.stream < 0x8000_0000
    ensures sent == Wire(c, None)
  {
    hide FrameBytes, BlockBytes;
    var length := if c.body.Some? then Some(|c.body.value|) else None;
    var block := BuildHeaderBlock(c.method_, Target(c), c.authority, length);
    var frames := [FrameBytes(HEADERS, END_HEADERS + if c.body.None? then END_STREAM else 0, c.stream, block)];
    if c.body.Some? {
      frames := frames + [FrameBytes(DATA, END_STREAM, c.stream, c.body.value)];
    }
    sent := [];
    for i := 0 to |frames|
      invariant sent == Joined(frames[..i])
    {
      sent := sent + frames[i];
      JoinedSnoc(frames[..i], frames[i]);
      assert frames[..i + 1] == frames[..i] + [frames[i]];
    }
    assert frames[..|frames|] == frames;
    JoinedSnoc([], frames[0]);
    assert [] + [frames[0]] == [frames[0]] && [] + frames[0] == frames[0];
    if c.body.Some? {
      JoinedSnoc([frames[0]], frames[1]);
    }
  }

  lemma {:induction false} JoinedSnoc(chunks: seq<seq<byte>>, last: seq<byte>)
    ensures Joined(chunks + [last]) == Joined(chunks) + last
  {
    if chunks == [] {
      assert [last][1..] == [] && chunks + [last] == [last] && last + [] == last;
    } else {
      assert (chunks + [last])[1..] == chunks[1..] + [last];
      JoinedSnoc(chunks[1..], last);
    }
  }

  /** Sends a request without a body, its header block cut in the middle. */
  method RequestWithContinuation(c: ClientRequest) returns (sent: seq<byte>)
    requires c.stream < 0x8000_0000 && c.method_ == Ascii("GET") && c.body.None?
    ensures sent == Wire(c, Some(|HeaderBlock(c)| / 2))
  {
    hide FrameBytes, BlockBytes, Ascii;
    var block := BuildHeaderBlock(Ascii("GET"), Target(c), c.authority, None);
    var split := |block| / 2;
    sent := FrameBytes(HEADERS, END_STREAM, c.stream, block[..split]);
    sent := sent + FrameBytes(CONTINUATION, END_HEADERS, c.stream, block[split..]);
  }

  // ---------- what the server does with it ----------

  lemma DrainStep(h: H2, f: Frame, more: seq<byte>, maxBody: nat)
    requires f.stream < 0x8000_0000 && |f.payload| <= h.maxFrameSize && |f.payload| < 0x100_0000
    ensures var o := HandleFrame(h, f, maxBody);
            Drain(h, FrameBytes(f.ty, f.flags, f.stream, f.payload) + more, maxBody)
            == if o.error.Some? then Drained(o.h, more, o.error) else Drain(Promote(o.h), more, maxBody)
  {
    hide HandleFrame, Promote, WireLength, FrameAt, FrameBytes;
    FrameReadsBack(f.ty, f.flags, f.stream, f.payload, more);
  }

  lemma HeaderBlockIsShort(c: ClientRequest)
    requires Sendable(c)
    ensures |HeaderBlock(c)| <= DEFAULT_MAX_FRAME
  {
    hide RepresentationBytes, BlockBytes, Ascii, Decimal, CleanText;
    var opening, closing := Opening(c.method_, Target(c), c.authority), Closing(BodyLength(c));
    ClosingIsShort(c);
    NamedSize(2, c.method_);
    NamedSize(4, Target(c));
    NamedSize(1, c.authority);
    IndexedByte(if c.method_ == Ascii("GET") then 2 else 3);
    IndexedByte(4);
    IndexedByte(6);
    BlockLengthCons(opening[3], closing, 4101, 200);
    BlockLengthCons(opening[2], [opening[3]] + closing, 1, 4301);
    BlockLengthCons(opening[1], [opening[2]] + ([opening[3]] + closing), 1028, 4302);
    BlockLengthCons(opening[0], [opening[1]] + ([opening[2]] + ([opening[3]] + closing)), 20, 5330);
    assert opening + closing == [opening[0]] + ([opening[1]] + ([opening[2]] + ([opening[3]] + closing)));
  }

  lemma ClosingIsShort(c: ClientRequest)
    requires Sendable(c)
    ensures |BlockBytes(Closing(BodyLength(c)))| <= 200
  {
    hide RepresentationBytes, Ascii, Decimal, CleanText;
    if c.body.Some? {
      var closing := Closing(BodyLength(c));
      SmallNumber(c);
      NamedSize(28, Decimal(|c.body.value|));
      NamedSize(31, Ascii("application/json"));
      BlockLengthCons(closing[1], [], 21, 0);
      BlockLengthCons(closing[0], [closing[1]], 10, 21);
      assert [closing[1]] + [] == [closing[1]] && [closing[0]] + [closing[1]] == closing;
    }
  }

  /** The state after the whole request: exactly one more request waits, last in line. */
  function Taken(h: H2, c: ClientRequest): Outcome
    requires c.stream < 0x8000_0000
  {
    var g := h.(lastStreamId := c.stream);
    var g' := if c.body.Some? then WindowUpdates(g, Frame(DATA, END_STREAM, c.stream, c.body.value)) else g;
    QueueRequest(g', Received(c))
  }

  /** What a connection needs for reading another request: nothing half-received and a newer
      stream. */
  predicate CanRead(h: H2, c: ClientRequest, maxBody: nat) {
    && h.partialHeaders.None? && h.partialRequest.None?
    && (h.ready.None? ==> h.pending == [])
    && c.stream > h.lastStreamId && |Received(c).body| <= maxBody
    && DEFAULT_MAX_FRAME <= h.maxFrameSize
  }

  /** For taking it, also a free place in the queue. */
  predicate CanTake(h: H2, c: ClientRequest, maxBody: nat) {
    CanRead(h, c, maxBody) && |Waiting(h)| <= MAX_PENDING_STREAMS
  }

  lemma HeadFlagBits(endHeaders: bool, endStream: bool)
    ensures var flags := HeadFlags(endHeaders, endStream);
            && (Has(flags, END_HEADERS) <==> endHeaders) && (Has(flags, END_STREAM) <==> endStream)
            && !Has(flags, PADDED) && !Has(flags, PRIORITY_FLAG)
  {
  }

  lemma HeadTaken(h: H2, c: ClientRequest, maxBody: nat)
    requires Sendable(c) && CanRead(h, c, maxBody)
    ensures HandleFrame(h, Frame(HEADERS, HeadFlags(true, c.body.None?), c.stream, HeaderBlock(c)), maxBody)
            == AfterHead(h.(lastStreamId := c.stream), c)
  {
    hide DecodeHeaders, AfterHead, HeaderBlock, HeadFlags, Has, CleanText, Target;
    HeadFlagBits(true, c.body.None?);
    BlockStartsRequest(h.(lastStreamId := c.stream), c, maxBody);
  }

  lemma CutHeadTaken(h: H2, c: ClientRequest, k: nat, maxBody: nat)
    requires Sendable(c) && CanRead(h, c, maxBody) && k <= |HeaderBlock(c)|
    ensures var o := HandleFrame(h, Frame(HEADERS, HeadFlags(false, c.body.None?), c.stream, HeaderBlock(c)[..k]),
            maxBody);
            && o.error.None? && Promote(o.h) == o.h && o.h.maxFrameSize == h.maxFrameSize
            && HandleFrame(o.h, Frame(CONTINUATION, END_HEADERS, c.stream, HeaderBlock(c)[k..]), maxBody)
               == AfterHead(h.(lastStreamId := c.stream), c)
  {
    hide DecodeHeaders, AfterHead, HeaderBlock, HeadFlags, Has, CleanText, Target;
    HeadFlagBits(false, c.body.None?);
    HeadFlagBits(true, false);
    EndHeadersOnly();
    HeaderBlockIsShort(c);
    BlockStartsRequest(h.(lastStreamId := c.stream), c, maxBody);
    assert HeaderBlock(c)[..k] + HeaderBlock(c)[k..] == HeaderBlock(c);
  }

  lemma EndHeadersOnly()
    ensures HeadFlags(true, false) == END_HEADERS
  {
  }

  lemma HeadDrained(h: H2, c: ClientRequest, cut: Option<nat>, more: seq<byte>, maxBody: nat)
    requires Sendable(c) && CanTake(h, c, maxBody) && (cut.Some? ==> cut.value <= |HeaderBlock(c)|)
    ensures var o := AfterHead(h.(lastStreamId := c.stream), c);
            o.error.None? && Drain(h, HeadBytes(c, cut) + more, maxBody) == Drain(o.h, more, maxBody)
  {
    hide Drain, HandleFrame, HeaderBlock, HeadFlags, FrameBytes, CleanText, Target;
    HeaderBlockIsShort(c);
    var block := HeaderBlock(c);
    match cut
    case None =>
      HeadTaken(h, c, maxBody);
      DrainStep(h, Frame(HEADERS, HeadFlags(true, c.body.None?), c.stream, block), more, maxBody);
    case Some(k) =>
      var first := Frame(HEADERS, HeadFlags(false, c.body.None?), c.stream, block[..k]);
      var second := Frame(CONTINUATION, END_HEADERS, c.stream, block[k..]);
      var tail := FrameBytes(CONTINUATION, END_HEADERS, c.stream, block[k..]);
      CutHeadTaken(h, c, k, maxBody);
      DrainStep(h, first, tail + more, maxBody);
      DrainStep(HandleFrame(h, first, maxBody).h, second, more, maxBody);
      assert HeadBytes(c, cut) + more
          == FrameBytes(HEADERS, HeadFlags(false, c.body.None?), c.stream, block[..k]) + (tail + more);
  }

  lemma DataFinishes(h: H2, c: ClientRequest, maxBody: nat)
    requires Sendable(c) && c.body.Some?
    ensures FinishRequest(h, Received(c)) == QueueRequest(h, Received(c))
  {
    hide ContentLength, BodyFields, CleanText, Target, QueueRequest;
    LengthAnnounced(c, c.body.value);
  }

  lemma DataTaken(h: H2, c: ClientRequest, maxBody: nat)
    requires Sendable(c) && CanRead(h, c, maxBody) && c.body.Some?
    ensures HandleFrame(AfterHead(h.(lastStreamId := c.stream), c).h, Frame(DATA, END_STREAM, c.stream, c.body.value),
            maxBody)
            == Taken(h, c)
  {
    hide BodyFields, CleanText, Target, Waiting, FinishRequest, QueueRequest, FrameBytes, Be32;
    var g := AfterHead(h.(lastStreamId := c.stream), c).h;
    assert [] + c.body.value == c.body.value;
    DataFinishes(WindowUpdates(g, Frame(DATA, END_STREAM, c.stream, c.body.value)).(partialRequest := None), c,
        maxBody);
    assert h.(partialRequest := None) == h;
  }

  /** Within the limits, the server takes the request exactly as the client was given it,
      whether its header block is whole or cut anywhere, and whatever the table holds. */
  lemma RequestIsTaken(h: H2, c: ClientRequest, cut: Option<nat>, more: seq<byte>, maxBody: nat)
    requires Sendable(c) && CanTake(h, c, maxBody) && (cut.Some? ==> cut.value <= |HeaderBlock(c)|)
    ensures Taken(h, c).error.None?
    ensures Drain(h, Wire(c, cut) + more, maxBody) == Drain(Taken(h, c).h, more, maxBody)
  {
    hide Drain, HandleFrame, HeadBytes, FrameBytes, Received, CleanText, Target;
    var g := AfterHead(h.(lastStreamId := c.stream), c);
    if c.body.Some? {
      var data := Frame(DATA, END_STREAM, c.stream, c.body.value);
      var tail := FrameBytes(DATA, END_STREAM, c.stream, c.body.value);
      HeadDrained(h, c, cut, tail + more, maxBody);
      DataTaken(h, c, maxBody);
      DrainStep(g.h, data, more, maxBody);
      assert Wire(c, cut) + more == HeadBytes(c, cut) + (tail + more);
    } else {
      HeadDrained(h, c, cut, more, maxBody);
      assert Wire(c, cut) == HeadBytes(c, cut);
    }
  }

  // ---------- whole sessions ----------

  /** A request and where its header block is cut, if it is. */
  datatype Sent = Sent(request: ClientRequest, cut: Option<nat>)

  predicate Admissible(s: Sent, maxBody: nat) {
    && Sendable(s.request) && |Received(s.request).body| <= maxBody
    && (s.cut.Some? ==> s.cut.value <= |HeaderBlock(s.request)|)
  }

  /** Requests on streams that increase from `last`. */
  predicate Ordered(sent: seq<Sent>, last: nat, maxBody: nat)
    decreases |sent|
  {
    sent == []
    || (Admissible(sent[0], maxBody) && sent[0].request.stream > last
        && Ordered(sent[1..], sent[0].request.stream, maxBody))
  }

  function SessionBytes(sent: seq<Sent>, last: nat, maxBody: nat): seq<byte>
    requires Ordered(sent, last, maxBody)
    decreases |sent|
  {
    if sent == [] then []
    else Wire(sent[0].request, sent[0].cut) + SessionBytes(sent[1..], sent[0].request.stream, maxBody)
  }

  function AllReceived(sent: seq<Sent>): seq<Request> {
    if sent == [] then [] else [Received(sent[0].request)] + AllReceived(sent[1..])
  }

  lemma TakenWaits(h: H2, c: ClientRequest, maxBody: nat)
    requires Sendable(c) && CanTake(h, c, maxBody)
    ensures var g := Taken(h, c).h;
            && g.accepted == h.accepted + [Received(c)] && Waiting(g) == Waiting(h) + [Received(c)]
            && g.partialHeaders.None? && g.partialRequest.None? && g.ready.Some?
            && g.lastStreamId == c.stream && g.maxFrameSize == h.maxFrameSize
  {
    hide Received, FrameBytes, Be32, CleanText;
  }

  /** A connection with nothing half-received and nothing pending behind a free slot. */
  predicate Receptive(h: H2) {
    && h.partialHeaders.None? && h.partialRequest.None? && (h.ready.None? ==> h.pending == [])
    && DEFAULT_MAX_FRAME <= h.maxFrameSize
  }

  lemma SentIsTaken(h: H2, s: Sent, more: seq<byte>, maxBody: nat)
    requires Admissible(s, maxBody) && Receptive(h)
    requires s.request.stream > h.lastStreamId && |Waiting(h)| <= MAX_PENDING_STREAMS
    ensures var g := Taken(h, s.request).h;
            && Drain(h, Wire(s.request, s.cut) + more, maxBody) == Drain(g, more, maxBody)
            && g.accepted == h.accepted + [Received(s.request)] && Waiting(g) == Waiting(h) + [Received(s.request)]
            && Receptive(g) && g.lastStreamId == s.request.stream
  {
    hide CleanText, Target, Received, HeaderBlock, Wire, Taken, Drain, Waiting;
    RequestIsTaken(h, s.request, s.cut, more, maxBody);
    TakenWaits(h, s.request, maxBody);
  }

  lemma {:induction false} SessionIsTaken(h: H2, sent: seq<Sent>, maxBody: nat)
    requires Ordered(sent, h.lastStreamId, maxBody) && Receptive(h)
    requires |Waiting(h)| + |sent| <= MAX_PENDING_STREAMS + 1
    ensures var d := Drain(h, SessionBytes(sent, h.lastStreamId, maxBody), maxBody);
            && d.error.None? && d.rx == []
            && d.h.accepted == h.accepted + AllReceived(sent) && Waiting(d.h) == Waiting(h) + AllReceived(sent)
    decreases |sent|
  {
    hide Admissible, Sendable, Received, HeaderBlock, Wire, Taken, Drain, Waiting, Receptive;
    if sent == [] {
      NothingDrained(h, maxBody);
      assert h.accepted + [] == h.accepted && Waiting(h) + [] == Waiting(h);
    } else {
      var c, rest := sent[0].request, SessionBytes(sent[1..], sent[0].request.stream, maxBody);
      SentIsTaken(h, sent[0], rest, maxBody);
      StreamFits(sent[0], maxBody);
      SessionIsTaken(Taken(h, c).h, sent[1..], maxBody);
      assert forall w: seq<Request> :: w + [Received(c)] + AllReceived(sent[1..]) == w + AllReceived(sent);
    }
  }

  lemma StreamFits(s: Sent, maxBody: nat)
    requires Admissible(s, maxBody)
    ensures s.request.stream < 0x8000_0000
  {
  }

  lemma NothingDrained(h: H2, maxBody: nat)
    ensures Drain(h, [], maxBody) == Drained(h, [], None)
  {
  }

  lemma OpeningSettings(more: seq<byte>, maxBody: nat)
    ensures Drain(NewH2(), FrameBytes(SETTINGS, 0, 0, []) + more, maxBody)
            == Drain(Push(NewH2(), FrameBytes(SETTINGS, ACK, 0, [])), more, maxBody)
  {
    hide Drain, FrameBytes, SettingsPayload;
    var f := Frame(SETTINGS, 0, 0, []);
    assert ApplySettings(NewH2(), []) == Fine(NewH2());
    DrainStep(NewH2(), f, more, maxBody);
  }

  /** A client that opens the connection and sends up to 101 requests: wherever its bytes are
      cut, into what came with the preface and the chunks after it, a fresh server connection
      takes every request, in order and exactly as it was made, without an error and without
      leaving a byte.  At least one chunk has to follow: see Http2Lifecycle.LeftoverWaits. */
  lemma SessionArrives(rx: seq<byte>, chunks: seq<seq<byte>>, sent: seq<Sent>, maxBody: nat)
    requires Ordered(sent, 0, maxBody) && |sent| <= 101
    requires chunks != [] && |rx| + |Joined(chunks)| <= 2097152
    requires rx + Joined(chunks) == FrameBytes(SETTINGS, 0, 0, []) + SessionBytes(sent, 0, maxBody)
    ensures var d := FeedAll(NewH2(), rx, chunks, maxBody);
            && d.error.None? && d.rx == []
            && d.h.accepted == AllReceived(sent) && Waiting(d.h) == AllReceived(sent)
  {
    hide Ordered, SessionBytes, FrameBytes, Joined, Drain, AllReceived, SettingsPayload;
    ChunkingIsInvisible(NewH2(), rx, chunks, maxBody);
    OpeningSettings(SessionBytes(sent, 0, maxBody), maxBody);
    SessionIsTaken(Push(NewH2(), FrameBytes(SETTINGS, ACK, 0, [])), sent, maxBody);
    assert [] + AllReceived(sent) == AllReceived(sent);
  }
}
