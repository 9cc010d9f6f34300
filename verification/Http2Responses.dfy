/** HTTP/2 responses as the server frames them
    (src/fastapi_mojo_rs/src/bridge/http2_response.rs); texts are ASCII. */
module Http2Responses {
  import opened Wrappers
  import opened Bits
  import opened AsciiText
  import opened Decimals
  import opened Texts
  import opened HpackPrimitives
  import opened Hpack
  import opened HpackLiterals
  import opened Http2Frames
  import opened Http2Requests
  import opened Http2Spec

  const RESPONSE_HEADER_MAX: nat := 16384
  const RESPONSE_CHUNK: nat := 16384

  // ---------- text ----------

  /** The first word of a status line such as "200 OK". */
  function StatusCode(status: seq<byte>): seq<byte> {
    var s := TrimStart(status);
    s[..WordLength(s)]
  }

  predicate BreakAt(s: seq<byte>, i: nat) {
    i + 1 < |s| && s[i] == 13 && s[i + 1] == 10
  }

  /** The position of the first CRLF. */
  function FindBreak(s: seq<byte>): (at: nat)
    ensures at <= |s| && (at < |s| ==> BreakAt(s, at)) && forall i :: 0 <= i < at ==> !BreakAt(s, i)
  {
    if s == [] || BreakAt(s, 0) then 0
    else
      var at := FindBreak(s[1..]);
      assert forall i :: 0 < i < 1 + at ==> (BreakAt(s, i) <==> BreakAt(s[1..], i - 1));
      1 + at
  }

  /** The non-empty lines of a text. */
  function Lines(s: seq<byte>): seq<seq<byte>>
    decreases |s|
  {
    var at := FindBreak(s);
    var first := if at == 0 then [] else [s[..at]];
    if at == |s| then first else first + Lines(s[at + 2..])
  }

  // ---------- header fields ----------

  predicate HopByHop(name: seq<byte>) {
    || name == Ascii("connection") || name == Ascii("keep-alive") || name == Ascii("proxy-connection")
    || name == Ascii("transfer-encoding") || name == Ascii("upgrade")
  }

  function SanitizeName(raw: seq<byte>): Option<seq<byte>> {
    var name := Lowered(Trim(raw));
    if |name| <= 4096 && name != [] && !IsPseudo(name) && !HopByHop(name) then Some(name) else None
  }

  /** A line of the form `name: value`. */
  function LineField(line: seq<byte>): Option<Field> {
    var colon := Find(line, 58);
    if colon == |line| then None
    else
      match SanitizeName(line[..colon])
      case None => None
      case Some(name) => Some(Field(name, Trim(line[colon + 1..])))
  }

  function LineFields(lines: seq<seq<byte>>): Option<seq<Field>> {
    if lines == [] then Some([])
    else
      match LineField(lines[0])
      case None => None
      case Some(f) =>
        match LineFields(lines[1..])
        case None => None
        case Some(rest) => Some([f] + rest)
  }

  // ---------- extra lines from fields ----------

  /** A field that a line can carry unchanged. */
  predicate Renderable(f: Field) {
    && SanitizeName(f.name) == Some(f.name) && 58 !in f.name && 13 !in f.name
    && Trim(f.value) == f.value && 13 !in f.value
  }

  function RenderLine(f: Field): seq<byte> {
    f.name + [58, 32] + f.value
  }

  function RenderLines(fields: seq<Field>): seq<byte> {
    if fields == [] then [] else RenderLine(fields[0]) + [13, 10] + RenderLines(fields[1..])
  }

  lemma {:induction false} FindBreakAfter(s: seq<byte>, tail: seq<byte>)
    requires 13 !in s && BreakAt(tail, 0)
    ensures FindBreak(s + tail) == |s|
  {
    if s == [] {
      assert s + tail == tail;
    } else {
      assert (s + tail)[1..] == s[1..] + tail && (s + tail)[0] == s[0];
      FindBreakAfter(s[1..], tail);
    }
  }

  lemma LineReadsBack(f: Field)
    requires Renderable(f)
    ensures LineField(RenderLine(f)) == Some(f)
  {
    hide SanitizeName, Trim;
    var line := RenderLine(f);
    assert line == f.name + ([58, 32] + f.value);
    FindAfter(f.name, 58, [58, 32] + f.value);
    assert line[..|f.name|] == f.name && line[|f.name| + 1..] == [32] + f.value;
    TrimSpace(f.value);
  }

  /** Extra lines written from header fields are read back as those fields, in order. */
  lemma {:induction false} LinesReadBack(fields: seq<Field>)
    requires forall i :: 0 <= i < |fields| ==> Renderable(fields[i])
    ensures LineFields(Lines(RenderLines(fields))) == Some(fields)
    decreases |fields|
  {
    hide SanitizeName, Trim, LineField;
    if fields != [] {
      var line, rest := RenderLine(fields[0]), RenderLines(fields[1..]);
      var all := RenderLines(fields);
      assert Renderable(fields[0]);
      assert all == line + ([13, 10] + rest);
      FindBreakAfter(line, [13, 10] + rest);
      assert all[..|line|] == line && all[|line| + 2..] == rest;
      LineReadsBack(fields[0]);
      LinesReadBack(fields[1..]);
      var lines := [line] + Lines(rest);
      assert lines[0] == line && lines[1..] == Lines(rest) && Lines(all) == lines;
      assert [fields[0]] + fields[1..] == fields;
    }
  }

  function SpelledAll(fields: seq<Field>): (rs: seq<Representation>)
    ensures |rs| == |fields|
    ensures forall i :: 0 <= i < |fields| ==> rs[i] == Spelled(fields[i].name, fields[i].value)
  {
    if fields == [] then [] else [Spelled(fields[0].name, fields[0].value)] + SpelledAll(fields[1..])
  }

  function Known(status: seq<byte>, contentType: Option<seq<byte>>, length: Option<nat>): seq<Representation> {
    [Named(8, StatusCode(status))]
    + (if contentType.Some? then [Named(31, contentType.value)] else [])
    + (if length.Some? then [Named(28, Decimal(length.value))] else [])
  }

  /** The response's header block, unless a line is malformed or the block too long. */
  function ResponseBlock(status: seq<byte>, contentType: Option<seq<byte>>, length: Option<nat>,
                         extra: seq<byte>): Option<seq<byte>> {
    match LineFields(Lines(extra))
    case None => None
    case Some(fields) =>
      var block := BlockBytes(Known(status, contentType, length) + SpelledAll(fields));
      if |block| <= RESPONSE_HEADER_MAX then Some(block) else None
  }

  lemma LineFieldsSnoc(lines: seq<seq<byte>>, line: seq<byte>)
    ensures LineFields(lines + [line])
            == if LineFields(lines).None? || LineField(line).None? then None
               else Some(LineFields(lines).value + [LineField(line).value])
    decreases |lines|
  {
    hide LineField;
    if lines == [] {
      assert lines + [line] == [line] && [line][1..] == [];
      if LineField(line).Some? {
        assert [] + [LineField(line).value] == [LineField(line).value] + [];
      }
    } else {
      assert (lines + [line])[1..] == lines[1..] + [line];
      LineFieldsSnoc(lines[1..], line);
      if LineField(lines[0]).Some? && LineField(line).Some? && LineFields(lines[1..]).Some? {
        var f, rest, g := LineField(lines[0]).value, LineFields(lines[1..]).value, LineField(line).value;
        assert [f] + (rest + [g]) == [f] + rest + [g];
      }
    }
  }

  lemma {:induction false} LineFieldsPrefix(lines: seq<seq<byte>>, k: nat)
    requires k <= |lines| && LineFields(lines[..k]).None?
    ensures LineFields(lines).None?
    decreases |lines|
  {
    hide LineField;
    if k > 0 && LineField(lines[0]).Some? {
      assert lines[..k][1..] == lines[1..][..k - 1];
      LineFieldsPrefix(lines[1..], k - 1);
    }
  }

  lemma SpelledAllSnoc(fields: seq<Field>, f: Field)
    ensures SpelledAll(fields + [f]) == SpelledAll(fields) + [Spelled(f.name, f.value)]
  {
  }

  method BuildHeaderBlock(status: seq<byte>, contentType: Option<seq<byte>>, length: Option<nat>, extra: seq<byte>)
    returns (r: Option<seq<byte>>)
    ensures r == ResponseBlock(status, contentType, length, extra)
  {
    hide RepresentationBytes, BlockBytes, LineField, LineFields, Lines, StatusCode, Decimal, SpelledAll;
    ghost var known := Known(status, contentType, length);
    var block := BuildKnown(status, contentType, length);
    var lines := Lines(extra);
    ghost var fields: seq<Field> := [];
    assert lines[..0] == [] && known + SpelledAll([]) == known;
    NoLines();
    for i := 0 to |lines|
      invariant LineFields(lines[..i]) == Some(fields)
      invariant block == BlockBytes(known + SpelledAll(fields))
    {
      assert lines[..i + 1] == lines[..i] + [lines[i]];
      LineFieldsSnoc(lines[..i], lines[i]);
      var field := LineField(lines[i]);
      if field.None? {
        LineFieldsPrefix(lines, i + 1);
        return None;
      }
      var bytes := EncodeLiteralName(field.value.name, field.value.value);
      block := block + bytes;
      SpelledAllSnoc(fields, field.value);
      var spelled := Spelled(field.value.name, field.value.value);
      BlockBytesSnoc(known + SpelledAll(fields), spelled);
      assert known + (SpelledAll(fields) + [spelled]) == known + SpelledAll(fields) + [spelled];
      fields := fields + [field.value];
    }
    assert lines[..|lines|] == lines;
    return if |block| <= RESPONSE_HEADER_MAX then Some(block) else None;
  }

  lemma NoLines()
    ensures LineFields([]) == Some([]) && SpelledAll([]) == []
  {
  }

  method BuildKnown(status: seq<byte>, contentType: Option<seq<byte>>, length: Option<nat>) returns (block: seq<byte>)
    ensures block == BlockBytes(Known(status, contentType, length))
  {
    hide RepresentationBytes, StatusCode, Decimal;
    block := EncodeIndexedName(8, StatusCode(status));
    ghost var rs := [Named(8, StatusCode(status))];
    BlockBytesSnoc([], rs[0]);
    assert [] + rs == rs;
    if contentType.Some? {
      var bytes := EncodeIndexedName(31, contentType.value);
      block := block + bytes;
      BlockBytesSnoc(rs, Named(31, contentType.value));
      rs := rs + [Named(31, contentType.value)];
    }
    if length.Some? {
      var bytes := EncodeIndexedName(28, Decimal(length.value));
      block := block + bytes;
      BlockBytesSnoc(rs, Named(28, Decimal(length.value)));
      rs := rs + [Named(28, Decimal(length.value))];
    }
    assert rs == Known(status, contentType, length);
  }

  // ---------- frames ----------

  /** A body in frames of at most 16 KiB. */
  function Chunks(body: seq<byte>): (chunks: seq<seq<byte>>)
    ensures Joined(chunks) == body
    ensures forall i :: 0 <= i < |chunks| ==> 0 < |chunks[i]| <= RESPONSE_CHUNK
    decreases |body|
  {
    if body == [] then []
    else if |body| <= RESPONSE_CHUNK then
      assert [body][1..] == [] && body + [] == body;
      [body]
    else
      var rest := Chunks(body[RESPONSE_CHUNK..]);
      assert ([body[..RESPONSE_CHUNK]] + rest)[1..] == rest;
      assert body[..RESPONSE_CHUNK] + body[RESPONSE_CHUNK..] == body;
      [body[..RESPONSE_CHUNK]] + rest
  }

  /** Chunks as DATA frames; only the last ends the stream. */
  function DataFrames(stream: nat, chunks: seq<seq<byte>>): seq<seq<byte>>
    requires stream < 0x8000_0000
  {
    if chunks == [] then []
    else
      [FrameBytes(DATA, if |chunks| == 1 then END_STREAM else 0, stream, chunks[0])]
      + DataFrames(stream, chunks[1..])
  }

  function ResponseFrames(stream: nat, status: seq<byte>, contentType: seq<byte>, length: Option<nat>,
                          includeBody: bool, body: seq<byte>, extra: seq<byte>): Option<seq<seq<byte>>>
    requires stream < 0x8000_0000
  {
    var bodyless := !includeBody || body == [];
    match ResponseBlock(status, Some(contentType), length, extra)
    case None => None
    case Some(block) =>
      var head := FrameBytes(HEADERS, if bodyless then END_HEADERS + END_STREAM else END_HEADERS, stream, block);
      Some([head] + if bodyless then [] else DataFrames(stream, Chunks(body)))
  }

  method BuildResponseFrames(stream: nat, status: seq<byte>, contentType: seq<byte>, length: Option<nat>,
                             includeBody: bool, body: seq<byte>, extra: seq<byte>) returns (r: Option<seq<seq<byte>>>)
    requires stream < 0x8000_0000
    ensures r == ResponseFrames(stream, status, contentType, length, includeBody, body, extra)
  {
    hide ResponseBlock, FrameBytes;
    var bodyless := !includeBody || body == [];
    var block := BuildHeaderBlock(status, Some(contentType), length, extra);
    if block.None? {
      return None;
    }
    var flags := if bodyless then END_HEADERS + END_STREAM else END_HEADERS;
    var frames := [FrameBytes(HEADERS, flags, stream, block.value)];
    ghost var head := frames;
    if !bodyless {
      var chunks := Chunks(body);
      assert chunks[0..] == chunks;
      for index := 0 to |chunks|
        invariant frames + DataFrames(stream, chunks[index..]) == head + DataFrames(stream, chunks)
      {
        assert chunks[index..][1..] == chunks[index + 1..];
        var flags: byte := if index + 1 == |chunks| then END_STREAM else 0;
        frames := frames + [FrameBytes(DATA, flags, stream, chunks[index])];
      }
      assert chunks[|chunks|..] == [] && frames + [] == frames;
    } else {
      assert frames + [] == frames;
    }
    return Some(frames);
  }
}
