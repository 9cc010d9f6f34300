/** The bytes of a response on the wire, and when a response is refused
    (src/fastapi_mojo_rs/src/bridge/http2_response.rs). */
module Http2ResponseBytes {
  import opened Wrappers
  import opened Bits
  import opened AsciiText
  import opened Decimals
  import opened Texts
  import opened HpackPrimitives
  import opened Hpack
  import opened HpackLiterals
  import opened Http2Frames
  import opened Http2Requests
  import opened Http2Spec
  import opened Http2Responses

  // ---------- one header line and a short body ----------

  /** A frame: the length in three octets, the type, the flags and the stream in four. */
  function OnWire(ty: byte, flags: byte, stream: nat, payload: seq<byte>): seq<byte>
    requires stream < 0x8000_0000
  {
    [|payload| / 65536 % 256, |payload| / 256 % 256, |payload| % 256, ty, flags,
     stream / 16777216, stream / 65536 % 256, stream / 256 % 256, stream % 256] + payload
  }

  /** The header block: status, type and length by their static names, the field in full. */
  function HeadBlock(code: seq<byte>, contentType: seq<byte>, length: nat, f: Field): seq<byte>
    requires |code| < 127 && |contentType| < 127 && |Decimal(length)| < 127 && |f.name| < 127 && |f.value| < 127
  {
    ([0x08, |code|] + code) + (([0x0f, 0x10, |contentType|] + contentType)
      + (([0x0f, 0x0d, |Decimal(length)|] + Decimal(length))
        + ([0x00, |f.name|] + f.name + ([|f.value|] + f.value))))
  }

  lemma NamedText(index: nat, value: seq<byte>)
    requires index > 0 && |value| < 127
    ensures 1 <= index < 15 ==> RepresentationBytes(Named(index, value)) == [index] + ([|value|] + value)
    ensures 15 <= index < 143 ==> RepresentationBytes(Named(index, value)) == [15, index - 15] + ([|value|] + value)
  {
    hide RepresentationBytes;
    NamedPieces(index, value);
    PlainText(value);
    if 1 <= index < 15 {
      ShortHead(index);
    } else if 15 <= index < 143 {
      LongHead(index);
    }
  }

  lemma NamedPieces(index: nat, value: seq<byte>)
    requires index > 0
    ensures RepresentationBytes(Named(index, value)) == IntegerBytes(index, 4, 0) + StringBytes(Plain(value))
  {
    hide IntegerBytes, StringBytes;
    assert IntegerBytes(index, 4, 0) + [] == IntegerBytes(index, 4, 0);
  }

  lemma PlainText(s: seq<byte>)
    requires |s| < 127
    ensures StringBytes(Plain(s)) == [|s|] + s
  {
  }

  lemma ShortHead(index: nat)
    requires index < 15
    ensures IntegerBytes(index, 4, 0) == [index]
  {
  }

  lemma LongHead(index: nat)
    requires 15 <= index < 143
    ensures IntegerBytes(index, 4, 0) == [15, index - 15]
  {
  }

  lemma SpelledText(f: Field)
    requires |f.name| < 127 && |f.value| < 127
    ensures RepresentationBytes(Spelled(f.name, f.value)) == [0x00, |f.name|] + f.name + ([|f.value|] + f.value)
  {
    hide StringBytes;
    PlainText(f.name);
    PlainText(f.value);
    ShortHead(0);
  }

  lemma FourRepresentations(a: Representation, b: Representation, c: Representation, d: Representation)
    ensures BlockBytes([a, b, c] + [d])
            == RepresentationBytes(a) + (RepresentationBytes(b) + (RepresentationBytes(c) + RepresentationBytes(d)))
  {
    hide RepresentationBytes;
    var rs := [a, b, c] + [d];
    assert rs[1..] == [b, c, d] && rs[1..][1..] == [c, d] && rs[1..][1..][1..] == [d] && rs[1..][1..][1..][1..] == [];
    assert BlockBytes([]) == [] && RepresentationBytes(d) + [] == RepresentationBytes(d);
    assert BlockBytes([d]) == RepresentationBytes(d);
    assert BlockBytes([c, d]) == RepresentationBytes(c) + BlockBytes([d]);
    assert BlockBytes([b, c, d]) == RepresentationBytes(b) + BlockBytes([c, d]);
  }

  lemma StatusWord(code: seq<byte>, reason: seq<byte>)
    requires code != [] && (forall i :: 0 <= i < |code| ==> !IsSpace(code[i])) && (reason == [] || IsSpace(reason[0]))
    ensures StatusCode(code + reason) == code
  {
    var s := code + reason;
    assert TrimStart(s) == s;
    var k := WordLength(s);
    assert reason != [] ==> s[|code|] == reason[0];
    assert forall i :: 0 <= i < |code| ==> s[i] == code[i];
    assert k == |code|;
  }

  lemma HeadIsWritten(code: seq<byte>, reason: seq<byte>, contentType: seq<byte>, length: nat, f: Field)
    requires code != [] && (forall i :: 0 <= i < |code| ==> !IsSpace(code[i])) && (reason == [] || IsSpace(reason[0]))
    requires |code| < 127 && |contentType| < 127 && |Decimal(length)| < 127 && |f.name| < 127 && |f.value| < 127
    requires Renderable(f)
    ensures ResponseBlock(code + reason, Some(contentType), Some(length), f.name + [58, 32] + f.value + [13, 10])
            == Some(HeadBlock(code, contentType, length, f))
  {
    hide Lines, LineFields, RepresentationBytes, StatusCode, Decimal, Renderable, BlockBytes, SpelledAll;
    StatusWord(code, reason);
    LinesReadBack([f]);
    OneLine(f);
    OneSpelled(f);
    FourRepresentations(Named(8, code), Named(31, contentType), Named(28, Decimal(length)), Spelled(f.name, f.value));
    KnownIs(code + reason, contentType, length);
    NamedText(8, code);
    NamedText(31, contentType);
    NamedText(28, Decimal(length));
    SpelledText(f);
    assert [0x08] + ([|code|] + code) == [0x08, |code|] + code;
    var digits := Decimal(length);
    assert [15, 16] + ([|contentType|] + contentType) == [0x0f, 0x10, |contentType|] + contentType;
    assert [15, 13] + ([|digits|] + digits) == [0x0f, 0x0d, |digits|] + digits;
  }

  lemma KnownIs(status: seq<byte>, contentType: seq<byte>, length: nat)
    ensures Known(status, Some(contentType), Some(length))
            == [Named(8, StatusCode(status)), Named(31, contentType), Named(28, Decimal(length))]
  {
    hide StatusCode, Decimal, Named;
  }

  lemma OneLine(f: Field)
    ensures RenderLines([f]) == f.name + [58, 32] + f.value + [13, 10]
  {
    assert [f][1..] == [] && RenderLines([]) == [];
    assert f.name + [58, 32] + f.value + [13, 10] + [] == f.name + [58, 32] + f.value + [13, 10];
  }

  lemma OneSpelled(f: Field)
    ensures SpelledAll([f]) == [Spelled(f.name, f.value)]
  {
    assert [f][1..] == [] && SpelledAll([]) == [];
  }

  lemma FrameOnWire(ty: byte, flags: byte, stream: nat, payload: seq<byte>)
    requires stream < 0x8000_0000
    ensures FrameBytes(ty, flags, stream, payload) == OnWire(ty, flags, stream, payload)
  {
  }

  /** A response with a type, a length, one more field and up to 16 KiB of body is a HEADERS
      frame that ends the headers and a DATA frame that ends the stream. */
  lemma ResponseBytes(stream: nat, code: seq<byte>, reason: seq<byte>, contentType: seq<byte>, f: Field,
                      body: seq<byte>)
    requires stream < 0x8000_0000 && 0 < |body| <= 16384
    requires code != [] && (forall i :: 0 <= i < |code| ==> !IsSpace(code[i])) && (reason == [] || IsSpace(reason[0]))
    requires |code| < 127 && |contentType| < 127 && |Decimal(|body|)| < 127 && |f.name| < 127 && |f.value| < 127
    requires Renderable(f)
    ensures ResponseFrames(stream, code + reason, contentType, Some(|body|), true, body,
                           f.name + [58, 32] + f.value + [13, 10])
            == Some([OnWire(1, 4, stream, HeadBlock(code, contentType, |body|, f)), OnWire(0, 1, stream, body)])
  {
    hide ResponseBlock, Renderable, HeadBlock, OnWire, FrameBytes, Decimal, IsSpace;
    HeadIsWritten(code, reason, contentType, |body|, f);
    FrameOnWire(1, 4, stream, HeadBlock(code, contentType, |body|, f));
    FrameOnWire(0, 1, stream, body);
    assert Chunks(body) == [body];
    OneData(stream, body);
    var head, data := OnWire(1, 4, stream, HeadBlock(code, contentType, |body|, f)), OnWire(0, 1, stream, body);
    assert [head] + [data] == [head, data];
  }

  lemma OneData(stream: nat, body: seq<byte>)
    requires stream < 0x8000_0000
    ensures DataFrames(stream, [body]) == [FrameBytes(0, 1, stream, body)]
  {
    hide FrameBytes;
    assert [body][1..] == [] && DataFrames(stream, []) == [];
  }

  /** Without a body, or when none is to be sent, the one HEADERS frame ends the stream too. */
  lemma BodylessBytes(stream: nat, code: seq<byte>, reason: seq<byte>, contentType: seq<byte>, length: nat, f: Field,
                      includeBody: bool, body: seq<byte>)
    requires stream < 0x8000_0000 && (body == [] || !includeBody)
    requires code != [] && (forall i :: 0 <= i < |code| ==> !IsSpace(code[i])) && (reason == [] || IsSpace(reason[0]))
    requires |code| < 127 && |contentType| < 127 && |Decimal(length)| < 127 && |f.name| < 127 && |f.value| < 127
    requires Renderable(f)
    ensures ResponseFrames(stream, code + reason, contentType, Some(length), includeBody, body,
                           f.name + [58, 32] + f.value + [13, 10])
            == Some([OnWire(1, 5, stream, HeadBlock(code, contentType, length, f))])
  {
    hide ResponseBlock, Renderable, HeadBlock, OnWire, FrameBytes, Decimal, IsSpace;
    HeadIsWritten(code, reason, contentType, length, f);
    FrameOnWire(1, 5, stream, HeadBlock(code, contentType, length, f));
    var head := OnWire(1, 5, stream, HeadBlock(code, contentType, length, f));
    assert [head] + [] == [head];
  }

  // ---------- longer bodies ----------

  /** The body is cut into pieces of exactly 16 KiB, the last one excepted, each in a DATA
      frame of its own; only the last frame ends the stream. */
  lemma {:induction false} FullChunks(body: seq<byte>, k: nat)
    requires k < |Chunks(body)|
    ensures k * 16384 < |body|
    ensures Chunks(body)[k] == body[k * 16384..if |body| <= (k + 1) * 16384 then |body| else (k + 1) * 16384]
    ensures k + 1 == |Chunks(body)| <==> |body| <= (k + 1) * 16384
    decreases |body|
  {
    if |body| > RESPONSE_CHUNK {
      var rest := body[RESPONSE_CHUNK..];
      if k > 0 {
        FullChunks(rest, k - 1);
      } else {
        assert Chunks(rest) != [];
      }
    }
  }

  lemma {:induction false} DataFramesAt(stream: nat, chunks: seq<seq<byte>>, k: nat)
    requires stream < 0x8000_0000 && k < |chunks|
    ensures |DataFrames(stream, chunks)| == |chunks|
    ensures DataFrames(stream, chunks)[k] == OnWire(0, if k + 1 == |chunks| then 1 else 0, stream, chunks[k])
    decreases |chunks|
  {
    hide OnWire, FrameBytes;
    FrameOnWire(0, if |chunks| == 1 then 1 else 0, stream, chunks[0]);
    if |chunks| == 1 {
      assert DataFrames(stream, chunks[1..]) == [];
    } else {
      DataFramesAt(stream, chunks[1..], if k > 0 then k - 1 else 0);
    }
  }

  // ---------- what is refused ----------

  /** A line with a colon, and a name in front of it that may be sent. */
  predicate Sendable(line: seq<byte>) {
    exists at :: 0 <= at < |line| && SendableAt(line, at)
  }

  predicate SendableAt(line: seq<byte>, at: nat)
    requires at < |line|
  {
    var name := Lowered(Trim(line[..at]));
    && line[at] == 58 && 58 !in line[..at] && 0 < |name| <= 4096
    && name !in {Ascii("connection"), Ascii("keep-alive"), Ascii("proxy-connection"), Ascii("transfer-encoding"),
                 Ascii("upgrade")}
  }

  lemma NoColonInside(line: seq<byte>, at: nat)
    requires at <= |line| && 58 !in line[..at]
    ensures 58 !in Lowered(Trim(line[..at]))
  {
    TrimmedBytes(line[..at]);
  }

  lemma {:induction false} StartBytes(s: seq<byte>)
    ensures forall b :: b in TrimStart(s) ==> b in s
  {
    if s != [] && IsSpace(s[0]) {
      StartBytes(s[1..]);
    }
  }

  lemma TrimmedBytes(s: seq<byte>)
    ensures forall b :: b in Trim(s) ==> b in s
  {
    StartBytes(s);
    var t := TrimEnd(TrimStart(s));
    assert forall i :: 0 <= i < |t| ==> t[i] == TrimStart(s)[i];
  }

  lemma LineIsRefusedIff(line: seq<byte>)
    ensures LineField(line).None? <==> !Sendable(line)
  {
    hide Ascii, Trim, Lowered;
    var colon := Find(line, 58);
    if colon < |line| {
      NoColonInside(line, colon);
      assert Lowered(Trim(line[..colon])) != [] ==> Lowered(Trim(line[..colon]))[0] != 58;
      assert LineField(line).Some? <==> SendableAt(line, colon);
      forall at: nat | at < |line| && SendableAt(line, at) ensures at == colon {
        assert forall i :: 0 <= i < at ==> line[i] == line[..at][i];
      }
    }
  }

  lemma {:induction false} LinesAreRefusedIff(lines: seq<seq<byte>>)
    ensures LineFields(lines).None? <==> exists i :: 0 <= i < |lines| && !Sendable(lines[i])
    decreases |lines|
  {
    hide LineField, Sendable;
    if lines != [] {
      LineIsRefusedIff(lines[0]);
      LinesAreRefusedIff(lines[1..]);
      assert forall i :: 0 < i < |lines| ==> lines[i] == lines[1..][i - 1];
    }
  }

  /** A response is refused exactly when one of its lines cannot be sent, or when its header
      block would be longer than 16 KiB. */
  lemma ResponseIsRefusedIff(stream: nat, status: seq<byte>, contentType: seq<byte>, length: Option<nat>,
                             includeBody: bool, body: seq<byte>, extra: seq<byte>)
    requires stream < 0x8000_0000
    ensures ResponseFrames(stream, status, contentType, length, includeBody, body, extra).None?
            <==> || (exists i :: 0 <= i < |Lines(extra)| && !Sendable(Lines(extra)[i]))
                 || (&& LineFields(Lines(extra)).Some?
                     && 16384 < |BlockBytes(Known(status, Some(contentType), length)
                                            + SpelledAll(LineFields(Lines(extra)).value))|)
  {
    hide Lines, LineFields, Sendable, BlockBytes, Known, SpelledAll, Chunks, DataFrames, FrameBytes;
    LinesAreRefusedIff(Lines(extra));
  }
}
