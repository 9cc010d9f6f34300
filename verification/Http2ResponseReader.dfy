/** How the tool's client reads a response, and that it recovers what the server framed
    (src/fmtool/src/http2.rs). */
module Http2ResponseReader {
  import opened Wrappers
  import opened Bits
  import opened AsciiText
  import opened Decimals
  import opened Texts
  import opened HpackPrimitives
  import opened Hpack
  import opened HpackLiterals
  import opened Http2Frames
  import opened Http2Requests
  import opened Http2Spec
  import opened Http2Responses

  // ---------- the client's own header decoder ----------

  /** Continuation bytes without any limit. */
  function Continuation(bytes: seq<byte>, value: nat, unit: nat): (r: Option<Integer>)
    ensures r.Some? ==> |r.value.rest| < |bytes|
    decreases |bytes|
  {
    if bytes == [] then None
    else
      var sum := value + Scaled(bytes[0] % 128, unit);
      if bytes[0] < 128 then Some(Integer(sum, bytes[1..])) else Continuation(bytes[1..], sum, 128 * unit)
  }

  function ClientInteger(bytes: seq<byte>, n: nat): (r: Option<Integer>)
    requires bytes != [] && 4 <= n <= 7
    ensures r.Some? ==> |r.value.rest| < |bytes|
  {
    var size := PrefixSize(n);
    var prefix := bytes[0] % size;
    if prefix < size - 1 then Some(Integer(prefix, bytes[1..])) else Continuation(bytes[1..], prefix, 1)
  }

  method DecodeInteger(input: seq<byte>, pos: nat, n: nat) returns (r: Option<(nat, nat)>)
    requires pos < |input| && 4 <= n <= 7
    ensures r.Some? ==> pos < r.value.1 <= |input|
    ensures ClientInteger(input[pos..], n) == if r.Some? then Some(Integer(r.value.0, input[r.value.1..])) else None
  {
    hide PrefixSize, Scaled;
    var size := PrefixSize(n);
    var value: nat := input[pos] % size;
    var next := pos + 1;
    if value < size - 1 {
      return Some((value, next));
    }
    var unit: nat := 1;
    while next < |input|
      invariant pos < next <= |input|
      invariant ClientInteger(input[pos..], n) == Continuation(input[next..], value, unit)
    {
      var b := input[next];
      assert input[next..][1..] == input[next + 1..];
      next := next + 1;
      value := value + Scaled(b % 128, unit);
      if b < 128 {
        return Some((value, next));
      }
      unit := 128 * unit;
    }
    return None;
  }

  /** A field that cannot be read is refused; a string that should start at the end of the
      block ends the program, since its first byte is looked at without a check. */
  datatype ClientError = Refused | Aborted

  /** A plain string; Huffman coding is refused. */
  function ClientString(bytes: seq<byte>): (r: Result<Text, ClientError>)
    ensures r.Ok? ==> |r.value.rest| < |bytes|
  {
    if bytes == [] then Err(Aborted)
    else
      match ClientInteger(bytes, 7)
      case None => Err(Refused)
      case Some(Integer(len, rest)) =>
        if len > |rest| || bytes[0] >= 128 then Err(Refused) else Ok(Text(rest[..len], rest[len..]))
  }

  method DecodeString(input: seq<byte>, pos: nat) returns (r: Result<(seq<byte>, nat), ClientError>)
    requires pos <= |input|
    ensures r.Ok? ==> pos < r.value.1 <= |input|
    ensures ClientString(input[pos..]) == if r.Ok? then Ok(Text(r.value.0, input[r.value.1..])) else Err(r.error)
  {
    hide ClientInteger;
    if pos >= |input| {
      return Err(Aborted);
    }
    var huffman := input[pos] >= 128;
    var length := DecodeInteger(input, pos, 7);
    if length.None? {
      return Err(Refused);
    }
    var (len, next) := length.value;
    if next + len > |input| {
      return Err(Refused);
    }
    var raw := input[next..next + len];
    assert input[next..][..len] == raw && input[next..][len..] == input[next + len..];
    if huffman {
      return Err(Refused);
    }
    return Ok((raw, next + len));
  }

  /** The client's own table of names; its numbers start at 1. */
  function StaticName(index: nat): seq<byte>
    requires 1 <= index <= STATIC_SIZE
  {
    match index
    case 1 => Ascii(":authority") case 2 => Ascii(":method") case 3 => Ascii(":method")
    case 4 => Ascii(":path") case 5 => Ascii(":path") case 6 => Ascii(":scheme") case 7 => Ascii(":scheme")
    case 8 => Ascii(":status") case 9 => Ascii(":status") case 10 => Ascii(":status")
    case 11 => Ascii(":status") case 12 => Ascii(":status") case 13 => Ascii(":status")
    case 14 => Ascii(":status") case 15 => Ascii("accept-charset") case 16 => Ascii("accept-encoding")
    case 17 => Ascii("accept-language") case 18 => Ascii("accept-ranges") case 19 => Ascii("accept")
    case 20 => Ascii("access-control-allow-origin") case 21 => Ascii("age") case 22 => Ascii("allow")
    case 23 => Ascii("authorization") case 24 => Ascii("cache-control")
    case 25 => Ascii("content-disposition") case 26 => Ascii("content-encoding")
    case 27 => Ascii("content-language") case 28 => Ascii("content-length")
    case 29 => Ascii("content-location") case 30 => Ascii("content-range") case 31 => Ascii("content-type")
    case 32 => Ascii("cookie") case 33 => Ascii("date") case 34 => Ascii("etag") case 35 => Ascii("expect")
    case 36 => Ascii("expires") case 37 => Ascii("from") case 38 => Ascii("host") case 39 => Ascii("if-match")
    case 40 => Ascii("if-modified-since") case 41 => Ascii("if-none-match") case 42 => Ascii("if-range")
    case 43 => Ascii("if-unmodified-since") case 44 => Ascii("last-modified") case 45 => Ascii("link")
    case 46 => Ascii("location") case 47 => Ascii("max-forwards") case 48 => Ascii("proxy-authenticate")
    case 49 => Ascii("proxy-authorization") case 50 => Ascii("range") case 51 => Ascii("referer")
    case 52 => Ascii("refresh") case 53 => Ascii("retry-after") case 54 => Ascii("server")
    case 55 => Ascii("set-cookie") case 56 => Ascii("strict-transport-security")
    case 57 => Ascii("transfer-encoding") case 58 => Ascii("user-agent") case 59 => Ascii("vary")
    case 60 => Ascii("via") case _ => Ascii("www-authenticate")
  }

  lemma LowNamesAgree(index: nat)
    requires 1 <= index < 16
    ensures StaticName(index) == StaticEntry(index).name
  {
    hide Ascii;
  }

  lemma MiddleNamesAgree(index: nat)
    requires 16 <= index < 40
    ensures StaticName(index) == StaticEntry(index).name
  {
    hide Ascii;
  }

  lemma HighNamesAgree(index: nat)
    requires 40 <= index <= STATIC_SIZE
    ensures StaticName(index) == StaticEntry(index).name
  {
    hide Ascii;
  }

  /** The two ends have the same static table, as far as names go. */
  lemma NamesAgree(index: nat)
    requires 1 <= index <= STATIC_SIZE
    ensures StaticName(index) == StaticEntry(index).name
  {
    hide StaticName, StaticEntry;
    if index < 16 {
      LowNamesAgree(index);
    } else if index < 40 {
      MiddleNamesAgree(index);
    } else {
      HighNamesAgree(index);
    }
  }

  /** One field: an indexed one has only its name. */
  datatype FieldAt = FieldAt(field: Field, rest: seq<byte>)

  function ClientField(bytes: seq<byte>): (r: Result<FieldAt, ClientError>)
    requires bytes != []
    ensures r.Ok? ==> |r.value.rest| < |bytes|
  {
    if bytes[0] >= 128 then
      match ClientInteger(bytes, 7)
      case None => Err(Refused)
      case Some(Integer(index, rest)) =>
        if 1 <= index <= STATIC_SIZE then Ok(FieldAt(Field(StaticName(index), []), rest)) else Err(Refused)
    else
      match ClientInteger(bytes, 4)
      case None => Err(Refused)
      case Some(Integer(nameIndex, afterIndex)) =>
        match ClientName(nameIndex, afterIndex)
        case Err(e) => Err(e)
        case Ok(Text(name, afterName)) =>
          match ClientString(afterName)
          case Err(e) => Err(e)
          case Ok(Text(value, rest)) => Ok(FieldAt(Field(name, value), rest))
  }

  function ClientName(nameIndex: nat, bytes: seq<byte>): (r: Result<Text, ClientError>)
    ensures r.Ok? ==> |r.value.rest| <= |bytes|
  {
    if nameIndex == 0 then ClientString(bytes)
    else if nameIndex <= STATIC_SIZE then Ok(Text(StaticName(nameIndex), bytes))
    else Err(Refused)
  }

  function ClientFields(bytes: seq<byte>): Result<seq<Field>, ClientError>
    decreases |bytes|
  {
    if bytes == [] then Ok([])
    else
      match ClientField(bytes)
      case Err(e) => Err(e)
      case Ok(FieldAt(f, rest)) =>
        match ClientFields(rest)
        case Err(e) => Err(e)
        case Ok(fields) => Ok([f] + fields)
  }

  /** The program ends exactly where a literal breaks off in front of its name or its value. */
  lemma FieldAbortsIff(bytes: seq<byte>)
    requires bytes != []
    ensures var index, zero := ClientInteger(bytes, 4), Integer(0, []);
            ClientField(bytes) == Err(Aborted)
            <==> bytes[0] < 128 && index.Some?
                 && (index == Some(zero)
                     || (ClientName(index.value.value, index.value.rest).Ok?
                         && ClientName(index.value.value, index.value.rest).value.rest == []))
  {
    hide ClientInteger, StaticName;
  }

  /** A single zero byte is such a block. */
  lemma ZeroByteAborts()
    ensures ClientFields([0]) == Err(Aborted)
  {
  }

  method DecodeField(block: seq<byte>, pos: nat) returns (r: Result<(Field, nat), ClientError>)
    requires pos < |block|
    ensures r.Ok? ==> pos < r.value.1 <= |block|
    ensures ClientField(block[pos..]) == if r.Ok? then Ok(FieldAt(r.value.0, block[r.value.1..])) else Err(r.error)
  {
    hide ClientInteger, ClientString, StaticName;
    if block[pos] >= 128 {
      var indexed := DecodeInteger(block, pos, 7);
      if indexed.None? || indexed.value.0 == 0 || indexed.value.0 > STATIC_SIZE {
        return Err(Refused);
      }
      return Ok((Field(StaticName(indexed.value.0), []), indexed.value.1));
    }
    var nameIndex := DecodeInteger(block, pos, 4);
    if nameIndex.None? {
      return Err(Refused);
    }
    var (index, next) := nameIndex.value;
    var name: seq<byte>;
    if index == 0 {
      var text := DecodeString(block, next);
      if text.Err? {
        return Err(text.error);
      }
      name, next := text.value.0, text.value.1;
    } else {
      if index > STATIC_SIZE {
        return Err(Refused);
      }
      name := StaticName(index);
    }
    var value := DecodeString(block, next);
    if value.Err? {
      return Err(value.error);
    }
    return Ok((Field(name, value.value.0), value.value.1));
  }

  /** Fields already read, in front of what the rest gives. */
  function Behind(fields: seq<Field>, rest: Result<seq<Field>, ClientError>): Result<seq<Field>, ClientError> {
    if rest.Err? then Err(rest.error) else Ok(fields + rest.value)
  }

  lemma FieldsStep(block: seq<byte>, pos: nat, fields: seq<Field>)
    requires pos <= |block|
    ensures Behind(fields, ClientFields(block[pos..]))
            == if pos == |block| then Ok(fields)
               else
                 var f := ClientField(block[pos..]);
                 if f.Err? then Err(f.error) else Behind(fields + [f.value.field], ClientFields(f.value.rest))
  {
    hide ClientField;
    if pos == |block| {
      assert fields + [] == fields;
    } else {
      var f := ClientField(block[pos..]);
      if f.Ok? && ClientFields(f.value.rest).Ok? {
        assert fields + ([f.value.field] + ClientFields(f.value.rest).value)
            == fields + [f.value.field] + ClientFields(f.value.rest).value;
      }
    }
  }

  method DecodeHeaders(block: seq<byte>) returns (r: Result<seq<Field>, ClientError>)
    ensures r == ClientFields(block)
  {
    hide ClientField, ClientFields;
    var fields: seq<Field> := [];
    var pos := 0;
    assert block[0..] == block;
    assert forall rest: seq<Field> :: fields + rest == rest;
    while pos < |block|
      invariant pos <= |block| && ClientFields(block) == Behind(fields, ClientFields(block[pos..]))
    {
      FieldsStep(block, pos, fields);
      var field := DecodeField(block, pos);
      if field.Err? {
        return Err(field.error);
      }
      fields := fields + [field.value.0];
      pos := field.value.1;
    }
    FieldsStep(block, pos, fields);
    return Ok(fields);
  }

  // ---------- agreement with the server's encoder ----------

  /** Wherever the server's decoder accepts an integer, the client reads the same. */
  lemma {:induction false} ContinuationsAgree(bytes: seq<byte>, value: nat, unit: nat)
    requires ReadContinuation(bytes, value, unit).Ok?
    ensures Continuation(bytes, value, unit) == Some(ReadContinuation(bytes, value, unit).value)
    decreases |bytes|
  {
    hide Scaled;
    if bytes[0] >= 128 {
      ContinuationsAgree(bytes[1..], value + Scaled(bytes[0] % 128, unit), 128 * unit);
    }
  }

  lemma IntegersAgree(bytes: seq<byte>, n: nat)
    requires bytes != [] && 4 <= n <= 7 && ReadInteger(bytes, n).Ok?
    ensures ClientInteger(bytes, n) == Some(ReadInteger(bytes, n).value)
  {
    hide ReadContinuation, Continuation;
    var size := PrefixSize(n);
    if bytes[0] % size >= size - 1 {
      ContinuationsAgree(bytes[1..], bytes[0] % size, 1);
    }
  }

  lemma ClientReadsString(s: seq<byte>, rest: seq<byte>)
    requires |s| < INTEGER_LIMIT
    ensures ClientString(StringBytes(Plain(s)) + rest) == Ok(Text(s, rest))
  {
    hide ReadInteger, ClientInteger;
    var bytes := StringBytes(Plain(s)) + rest;
    assert bytes == IntegerBytes(|s|, 7, 0) + (s + rest);
    IntegerReadsBack(|s|, 7, 0, s + rest);
    IntegersAgree(bytes, 7);
    assert (s + rest)[..|s|] == s && (s + rest)[|s|..] == rest;
  }

  /** A field as the response encoder writes it. */
  predicate Simple(r: Representation) {
    && r.Literal? && r.indexing.Without? && r.nameIndex <= STATIC_SIZE && r.name.Plain? && r.value.Plain?
    && (r.nameIndex > 0 ==> r.name.text == [])
  }

  lemma ClientReadsName(r: Representation, after: seq<byte>)
    requires Stateless(r) && Simple(r)
    ensures ClientName(r.nameIndex, (if r.nameIndex == 0 then StringBytes(r.name) else []) + after)
            == Ok(Text(FieldOf(r).name, after))
  {
    hide StringBytes, ClientString, StaticEntry, StaticName;
    if r.nameIndex == 0 {
      ClientReadsString(r.name.text, after);
    } else {
      NamesAgree(r.nameIndex);
      assert [] + after == after;
    }
  }

  lemma ClientReadsField(r: Representation, rest: seq<byte>)
    requires Stateless(r) && Simple(r)
    ensures ClientField(RepresentationBytes(r) + rest) == Ok(FieldAt(FieldOf(r), rest))
  {
    hide StringBytes, ClientString, StaticEntry, ClientInteger, ReadInteger, IntegerBytes, ClientName;
    var head, value := IntegerBytes(r.nameIndex, 4, 0), StringBytes(r.value);
    var name := if r.nameIndex == 0 then StringBytes(r.name) else [];
    assert RepresentationBytes(r) + rest == head + (name + (value + rest));
    IntegerReadsBack(r.nameIndex, 4, 0, name + (value + rest));
    IntegersAgree(head + (name + (value + rest)), 4);
    ClientReadsName(r, value + rest);
    ClientReadsString(r.value.text, rest);
  }

  lemma {:induction false} ClientReadsBlock(rs: seq<Representation>)
    requires forall i :: 0 <= i < |rs| ==> Stateless(rs[i]) && Simple(rs[i])
    ensures ClientFields(BlockBytes(rs)) == Ok(FieldsOf(rs))
  {
    hide RepresentationBytes, ClientField, FieldOf;
    if rs != [] {
      ClientReadsField(rs[0], BlockBytes(rs[1..]));
      ClientReadsBlock(rs[1..]);
    }
  }

  // ---------- the response ----------

  datatype Response = Response(status: nat, headers: seq<Field>, body: seq<byte>)

  /** What `parse` makes of a status text: an optional plus sign and digits below 65536. */
  function ParseStatus(text: seq<byte>): (status: nat)
    ensures status < 65536
  {
    var digits := if text != [] && text[0] == 43 then text[1..] else text;
    if digits == [] || !AllDigits(digits) || DecimalValue(digits) >= 65536 then 0 else DecimalValue(digits)
  }

  function ApplyFields(r: Response, fields: seq<Field>): Response
    decreases |fields|
  {
    if fields == [] then r
    else
      var r' := if fields[0].name == Ascii(":status") then r.(status := ParseStatus(fields[0].value))
                else r.(headers := r.headers + [fields[0]]);
      ApplyFields(r', fields[1..])
  }

  /** A complete response: what follows it in the input, and what the client sent meanwhile. */
  datatype Reply = Reply(response: Response, rest: seq<byte>, sent: seq<seq<byte>>)

  /** One frame's effect: the response so far, whether it is complete, and the answer sent. */
  datatype Effect = Effect(response: Response, complete: bool, answer: seq<seq<byte>>)

  function Apply(f: Frame, expected: nat, r: Response): Result<Effect, ClientError> {
    if f.ty == SETTINGS && !Has(f.flags, ACK) then Ok(Effect(r, false, [FrameBytes(SETTINGS, ACK, 0, [])]))
    else if f.ty == PING && !Has(f.flags, ACK) then Ok(Effect(r, false, [FrameBytes(PING, ACK, 0, f.payload)]))
    else if f.ty == HEADERS && f.stream == expected then
      match ClientFields(f.payload)
      case Err(e) => Err(e)
      case Ok(fields) => Ok(Effect(ApplyFields(r, fields), Has(f.flags, END_STREAM), []))
    else if f.ty == DATA && f.stream == expected then
      Ok(Effect(r.(body := r.body + f.payload), Has(f.flags, END_STREAM), []))
    else if f.ty == GOAWAY then Err(Refused)
    else Ok(Effect(r, false, []))
  }

  /** Reads frames until the expected stream ends; an error when reading fails first. */
  function Read(input: seq<byte>, expected: nat, r: Response, sent: seq<seq<byte>>): Result<Reply, ClientError>
    decreases |input|
  {
    if |input| < FRAME_HEADER || |input| < FRAME_HEADER + WireLength(input) then Err(Refused)
    else
      match Apply(FrameAt(input), expected, r)
      case Err(e) => Err(e)
      case Ok(Effect(r', complete, answer)) =>
        var rest := input[FRAME_HEADER + WireLength(input)..];
        if complete then Ok(Reply(r', rest, sent + answer)) else Read(rest, expected, r', sent + answer)
  }

  method ApplyHeaders(r: Response, fields: seq<Field>) returns (r': Response)
    ensures r' == ApplyFields(r, fields)
  {
    hide Ascii, ParseStatus;
    r' := r;
    assert fields[0..] == fields;
    for i := 0 to |fields|
      invariant ApplyFields(r, fields) == ApplyFields(r', fields[i..])
    {
      assert fields[i..][1..] == fields[i + 1..];
      var f := fields[i];
      if f.name == Ascii(":status") {
        r' := r'.(status := ParseStatus(f.value));
      } else {
        r' := r'.(headers := r'.headers + [f]);
      }
    }
  }

  method ReadResponse(input: seq<byte>, expected: nat) returns (reply: Result<Reply, ClientError>)
    ensures reply == Read(input, expected, Response(0, [], []), [])
  {
    hide WireLength, FrameAt, ClientFields, ApplyFields, FrameBytes;
    var r := Response(0, [], []);
    var rest := input;
    var sent: seq<seq<byte>> := [];
    while true
      invariant Read(input, expected, Response(0, [], []), []) == Read(rest, expected, r, sent)
      decreases |rest|
    {
      if |rest| < FRAME_HEADER || |rest| < FRAME_HEADER + WireLength(rest) {
        return Err(Refused);
      }
      var f := FrameAt(rest);
      var next := rest[FRAME_HEADER + WireLength(rest)..];
      if f.ty == SETTINGS && !Has(f.flags, ACK) {
        sent := sent + [FrameBytes(SETTINGS, ACK, 0, [])];
      } else if f.ty == PING && !Has(f.flags, ACK) {
        sent := sent + [FrameBytes(PING, ACK, 0, f.payload)];
      } else if f.ty == HEADERS && f.stream == expected {
        var fields := DecodeHeaders(f.payload);
        if fields.Err? {
          return Err(fields.error);
        }
        r := ApplyHeaders(r, fields.value);
        if Has(f.flags, END_STREAM) {
          assert sent + [] == sent;
          return Ok(Reply(r, next, sent));
        }
      } else if f.ty == DATA && f.stream == expected {
        r := r.(body := r.body + f.payload);
        if Has(f.flags, END_STREAM) {
          assert sent + [] == sent;
          return Ok(Reply(r, next, sent));
        }
      } else if f.ty == GOAWAY {
        return Err(Refused);
      }
      assert forall s: seq<seq<byte>> :: s + [] == s;
      rest := next;
    }
  }

  // ---------- recovering what the server framed ----------

  lemma ReadStep(f: Frame, rest: seq<byte>, expected: nat, r: Response, sent: seq<seq<byte>>)
    requires f.stream < 0x8000_0000 && |f.payload| < 0x100_0000
    ensures var e := Apply(f, expected, r);
            Read(FrameBytes(f.ty, f.flags, f.stream, f.payload) + rest, expected, r, sent)
            == if e.Err? then Err(e.error)
               else if e.value.complete then Ok(Reply(e.value.response, rest, sent + e.value.answer))
               else Read(rest, expected, e.value.response, sent + e.value.answer)
  {
    hide Apply, WireLength, FrameAt, FrameBytes;
    FrameReadsBack(f.ty, f.flags, f.stream, f.payload, rest);
  }

  lemma DataEffect(stream: nat, last: bool, chunk: seq<byte>, r: Response)
    ensures Apply(Frame(DATA, if last then END_STREAM else 0, stream, chunk), stream, r)
            == Ok(Effect(r.(body := r.body + chunk), last, []))
  {
  }

  lemma DataFramesJoined(stream: nat, chunks: seq<seq<byte>>, rest: seq<byte>)
    requires stream < 0x8000_0000 && chunks != []
    ensures Joined(DataFrames(stream, chunks)) + rest
            == FrameBytes(DATA, if |chunks| == 1 then END_STREAM else 0, stream, chunks[0])
               + (Joined(DataFrames(stream, chunks[1..])) + rest)
  {
  }

  lemma {:induction false} DataRead(stream: nat, chunks: seq<seq<byte>>, r: Response, rest: seq<byte>,
                                    sent: seq<seq<byte>>)
    requires stream < 0x8000_0000 && chunks != []
    requires forall i :: 0 <= i < |chunks| ==> |chunks[i]| < 0x100_0000
    ensures Read(Joined(DataFrames(stream, chunks)) + rest, stream, r, sent)
            == Ok(Reply(r.(body := r.body + Joined(chunks)), rest, sent))
    decreases |chunks|
  {
    hide Read, FrameBytes, Apply;
    var last := |chunks| == 1;
    DataFramesJoined(stream, chunks, rest);
    DataEffect(stream, last, chunks[0], r);
    ReadStep(Frame(DATA, if last then END_STREAM else 0, stream, chunks[0]),
             Joined(DataFrames(stream, chunks[1..])) + rest, stream, r, sent);
    assert sent + [] == sent;
    if last {
      LastChunk(chunks);
      assert [] + rest == rest;
    } else {
      DataRead(stream, chunks[1..], r.(body := r.body + chunks[0]), rest, sent);
      assert r.body + chunks[0] + Joined(chunks[1..]) == r.body + Joined(chunks);
    }
  }

  lemma LastChunk(chunks: seq<seq<byte>>)
    requires |chunks| == 1
    ensures chunks[1..] == [] && Joined(chunks) == chunks[0]
  {
    assert chunks[0] + [] == chunks[0];
  }

  lemma {:induction false} PartsFit(rs: seq<Representation>, k: nat)
    requires k < |rs|
    ensures |RepresentationBytes(rs[k])| <= |BlockBytes(rs)|
    decreases |rs|
  {
    hide RepresentationBytes;
    if k > 0 {
      PartsFit(rs[1..], k - 1);
    }
  }

  /** The fields of a response block: the status, what is known, and the extra lines. */
  function KnownFields(contentType: Option<seq<byte>>, length: Option<nat>): seq<Field> {
    (if contentType.Some? then [Field(Ascii("content-type"), contentType.value)] else [])
    + (if length.Some? then [Field(Ascii("content-length"), Decimal(length.value))] else [])
  }

  lemma SimpleFits(r: Representation)
    requires Simple(r) && |RepresentationBytes(r)| <= RESPONSE_HEADER_MAX
    ensures Stateless(r)
  {
  }

  /** A block that was not refused is read back by the client. */
  lemma ShortBlockReads(rs: seq<Representation>)
    requires |BlockBytes(rs)| <= RESPONSE_HEADER_MAX && forall i :: 0 <= i < |rs| ==> Simple(rs[i])
    ensures (forall i :: 0 <= i < |rs| ==> Stateless(rs[i])) && ClientFields(BlockBytes(rs)) == Ok(FieldsOf(rs))
  {
    hide BlockBytes, RepresentationBytes, Simple, Stateless, ClientFields, FieldsOf;
    forall i | 0 <= i < |rs| ensures Stateless(rs[i]) {
      PartsFit(rs, i);
      SimpleFits(rs[i]);
    }
    ClientReadsBlock(rs);
  }

  lemma KnownMeans(status: seq<byte>, contentType: Option<seq<byte>>, length: Option<nat>)
    requires forall i ::
               0 <= i < |Known(status, contentType, length)|
               ==> Stateless(Known(status, contentType, length)[i])
    ensures FieldsOf(Known(status, contentType, length))
            == [Field(Ascii(":status"), StatusCode(status))] + KnownFields(contentType, length)
  {
    hide Ascii, Decimal, StatusCode, Encodable;
    var rs := Known(status, contentType, length);
    assert FieldOf(rs[0]) == Field(Ascii(":status"), StatusCode(status));
    if contentType.Some? {
      assert FieldOf(rs[1]) == Field(Ascii("content-type"), contentType.value);
    }
    if length.Some? {
      assert FieldOf(rs[|rs| - 1]) == Field(Ascii("content-length"), Decimal(length.value));
    }
  }

  /** The fields of a whole response block, in order. */
  lemma BlockMeans(status: seq<byte>, contentType: Option<seq<byte>>, length: Option<nat>, fields: seq<Field>)
    requires forall i :: 0 <= i < |Known(status, contentType, length) + SpelledAll(fields)| ==>
               Stateless((Known(status, contentType, length) + SpelledAll(fields))[i])
    ensures FieldsOf(Known(status, contentType, length) + SpelledAll(fields))
            == [Field(Ascii(":status"), StatusCode(status))] + (KnownFields(contentType, length) + fields)
  {
    hide Ascii, Decimal, StatusCode, Stateless, FieldOf, FieldsOf, KnownFields, Known;
    var known := Known(status, contentType, length);
    FieldsOfConcat(known, SpelledAll(fields));
    KnownMeans(status, contentType, length);
    forall i | 0 <= i < |fields| ensures FieldsOf(SpelledAll(fields))[i] == fields[i] {
      SpelledMeans(fields[i]);
    }
    assert FieldsOf(SpelledAll(fields)) == fields;
  }

  lemma SpelledMeans(f: Field)
    requires Stateless(Spelled(f.name, f.value))
    ensures FieldOf(Spelled(f.name, f.value)) == f
  {
  }

  lemma {:induction false} NoStatusAmong(r: Response, fields: seq<Field>)
    requires forall i :: 0 <= i < |fields| ==> fields[i].name != Ascii(":status")
    ensures ApplyFields(r, fields) == r.(headers := r.headers + fields)
    decreases |fields|
  {
    hide Ascii, ParseStatus;
    if fields == [] {
      assert r.headers + [] == r.headers;
    } else {
      NoStatusAmong(r.(headers := r.headers + [fields[0]]), fields[1..]);
      assert r.headers + [fields[0]] + fields[1..] == r.headers + fields;
    }
  }

  lemma {:induction false} LinesHaveNoStatus(lines: seq<seq<byte>>)
    requires LineFields(lines).Some?
    ensures forall i :: 0 <= i < |LineFields(lines).value| ==> LineFields(lines).value[i].name != Ascii(":status")
  {
    hide Lowered, HopByHop, Trim;
    if lines != [] {
      LinesHaveNoStatus(lines[1..]);
      assert IsPseudo(Ascii(":status"));
    }
  }

  // ---------- the round trip ----------

  function ExtraFields(extra: seq<byte>): seq<Field> {
    var fields := LineFields(Lines(extra));
    if fields.Some? then fields.value else []
  }

  function ExpectedResponse(status: seq<byte>, contentType: Option<seq<byte>>, length: Option<nat>, extra: seq<byte>,
                            body: seq<byte>): Response {
    Response(ParseStatus(StatusCode(status)), KnownFields(contentType, length) + ExtraFields(extra), body)
  }

  lemma BlockGivesHeaders(status: seq<byte>, contentType: Option<seq<byte>>, length: Option<nat>, extra: seq<byte>)
    requires ResponseBlock(status, contentType, length, extra).Some?
    ensures var fields := ClientFields(ResponseBlock(status, contentType, length, extra).value);
            fields.Ok? && ApplyFields(Response(0, [], []), fields.value)
                == ExpectedResponse(status, contentType, length, extra, [])
    ensures ExpectedResponse(status, contentType, length, extra, []).body == []
    ensures |ResponseBlock(status, contentType, length, extra).value| <= RESPONSE_HEADER_MAX
  {
    hide BlockBytes, Lines, LineFields, StatusCode, Decimal, Ascii, ClientFields, FieldsOf, Stateless, ParseStatus;
    var known, fields := Known(status, contentType, length), LineFields(Lines(extra)).value;
    ShortBlockReads(known + SpelledAll(fields));
    BlockMeans(status, contentType, length, fields);
    HeadersApply(Field(Ascii(":status"), StatusCode(status)), contentType, length, Lines(extra));
  }

  lemma HeadersApply(first: Field, contentType: Option<seq<byte>>, length: Option<nat>, lines: seq<seq<byte>>)
    requires LineFields(lines).Some? && first.name == Ascii(":status")
    ensures var rest := KnownFields(contentType, length) + LineFields(lines).value;
            ApplyFields(Response(0, [], []), [first] + rest) == Response(ParseStatus(first.value), rest, [])
  {
    hide LineFields, Ascii, ParseStatus, KnownFields;
    var rest := KnownFields(contentType, length) + LineFields(lines).value;
    assert ([first] + rest)[1..] == rest && [] + rest == rest;
    LinesHaveNoStatus(lines);
    KnownHaveNoStatus(contentType, length);
    NoStatusAmong(Response(ParseStatus(first.value), [], []), rest);
  }

  lemma KnownHaveNoStatus(contentType: Option<seq<byte>>, length: Option<nat>)
    ensures forall i ::
              0 <= i < |KnownFields(contentType, length)|
              ==> KnownFields(contentType, length)[i].name != Ascii(":status")
  {
  }

  lemma HeadEffect(stream: nat, last: bool, block: seq<byte>, r: Response)
    requires ClientFields(block).Ok?
    ensures Apply(Frame(HEADERS, if last then END_HEADERS + END_STREAM else END_HEADERS, stream, block), stream, r)
            == Ok(Effect(ApplyFields(r, ClientFields(block).value), last, []))
  {
    hide ClientFields, ApplyFields;
  }

  /** Frames a client passes over while it waits for a response. */
  predicate Passing(f: Frame, expected: nat) {
    && f.stream < 0x8000_0000 && |f.payload| < 0x100_0000
    && f.ty != GOAWAY && !((f.ty == HEADERS || f.ty == DATA) && f.stream == expected)
  }

  function AllFrameBytes(frames: seq<Frame>, expected: nat): seq<byte>
    requires forall i :: 0 <= i < |frames| ==> Passing(frames[i], expected)
  {
    if frames == [] then []
    else
      assert Passing(frames[0], expected);
      FrameBytes(frames[0].ty, frames[0].flags, frames[0].stream, frames[0].payload)
          + AllFrameBytes(frames[1..], expected)
  }

  /** The client's answers to such frames: acknowledgements of settings and pings. */
  function Answers(frames: seq<Frame>): seq<seq<byte>> {
    if frames == [] then [] else Answer(frames[0]) + Answers(frames[1..])
  }

  function Answer(f: Frame): seq<seq<byte>> {
    if f.ty == SETTINGS && !Has(f.flags, ACK) then [FrameBytes(SETTINGS, ACK, 0, [])]
    else if f.ty == PING && !Has(f.flags, ACK) then [FrameBytes(PING, ACK, 0, f.payload)]
    else []
  }

  lemma PassingEffect(f: Frame, expected: nat, r: Response)
    requires Passing(f, expected)
    ensures Apply(f, expected, r) == Ok(Effect(r, false, Answer(f)))
  {
  }

  lemma {:induction false} PassingRead(frames: seq<Frame>, rest: seq<byte>, expected: nat, r: Response,
                                       sent: seq<seq<byte>>)
    requires forall i :: 0 <= i < |frames| ==> Passing(frames[i], expected)
    ensures Read(AllFrameBytes(frames, expected) + rest, expected, r, sent)
            == Read(rest, expected, r, sent + Answers(frames))
    decreases |frames|
  {
    hide Read, FrameBytes, Apply, Answer;
    if frames == [] {
      assert [] + rest == rest && sent + [] == sent;
    } else {
      var f, others := frames[0], AllFrameBytes(frames[1..], expected);
      PassingEffect(f, expected, r);
      ReadStep(f, others + rest, expected, r, sent);
      PassingRead(frames[1..], rest, expected, r, sent + Answer(f));
      assert AllFrameBytes(frames, expected) + rest == FrameBytes(f.ty, f.flags, f.stream, f.payload) + (others + rest);
      assert sent + Answer(f) + Answers(frames[1..]) == sent + Answers(frames);
    }
  }

  /** Whatever response the server can frame, the client recovers its status, its headers in
      order and its body, leaves the bytes after it alone, and on the way only acknowledges
      the control frames that came first. */
  lemma ResponseReadsBack(stream: nat, status: seq<byte>, contentType: seq<byte>, length: Option<nat>,
                          includeBody: bool,
                          body: seq<byte>, extra: seq<byte>, before: seq<Frame>, after: seq<byte>)
    requires stream < 0x8000_0000 && forall i :: 0 <= i < |before| ==> Passing(before[i], stream)
    requires ResponseFrames(stream, status, contentType, length, includeBody, body, extra).Some?
    ensures var frames := ResponseFrames(stream, status, contentType, length, includeBody, body, extra).value;
            Read(AllFrameBytes(before, stream) + (Joined(frames) + after), stream, Response(0, [], []), [])
               == Ok(Reply(ExpectedResponse(status, Some(contentType), length, extra, if includeBody then body else []),
                             after, Answers(before)))
  {
    hide Read, FrameBytes, ResponseBlock, ClientFields, ApplyFields, ExpectedResponse, Answers, AllFrameBytes, Chunks,
         LineFields, Lines, DataFrames;
    var frames := ResponseFrames(stream, status, contentType, length, includeBody, body, extra).value;
    var block := ResponseBlock(status, Some(contentType), length, extra).value;
    BlockGivesHeaders(status, Some(contentType), length, extra);
    PassingRead(before, Joined(frames) + after, stream, Response(0, [], []), []);
    assert [] + Answers(before) == Answers(before);
    FramesRead(stream, block, if includeBody then body else [], after, Answers(before));
    ExpectedBody(status, Some(contentType), length, extra, if includeBody then body else []);
  }

  lemma ExpectedBody(status: seq<byte>, contentType: Option<seq<byte>>, length: Option<nat>, extra: seq<byte>,
                     body: seq<byte>)
    ensures ExpectedResponse(status, contentType, length, extra, []).(body := body)
            == ExpectedResponse(status, contentType, length, extra, body)
  {
  }

  lemma FramesRead(stream: nat, block: seq<byte>, body: seq<byte>, after: seq<byte>, sent: seq<seq<byte>>)
    requires stream < 0x8000_0000 && |block| <= RESPONSE_HEADER_MAX && ClientFields(block).Ok?
    requires ApplyFields(Response(0, [], []), ClientFields(block).value).body == []
    ensures var flags := if body == [] then END_HEADERS + END_STREAM else END_HEADERS;
            var data := if body == [] then [] else DataFrames(stream, Chunks(body));
            Read(Joined([FrameBytes(HEADERS, flags, stream, block)] + data) + after, stream, Response(0, [], []), sent)
            == Ok(Reply(ApplyFields(Response(0, [], []), ClientFields(block).value).(body := body), after, sent))
  {
    hide Read, FrameBytes, ClientFields, ApplyFields, Chunks, Apply, DataFrames;
    var f := Frame(HEADERS, if body == [] then END_HEADERS + END_STREAM else END_HEADERS, stream, block);
    var head := FrameBytes(f.ty, f.flags, stream, block);
    var others := if body == [] then [] else DataFrames(stream, Chunks(body));
    assert ([head] + others)[1..] == others;
    assert Joined([head] + others) + after == head + (Joined(others) + after);
    HeadEffect(stream, body == [], block, Response(0, [], []));
    ReadStep(f, Joined(others) + after, stream, Response(0, [], []), sent);
    assert sent + [] == sent && [] + after == after && [] + body == body;
    if body != [] {
      DataRead(stream, Chunks(body), ApplyFields(Response(0, [], []), ClientFields(block).value), after, sent);
    }
  }

  /** "404 Not Found" is status 404. */
  lemma StatusRecovered(n: nat, reason: seq<byte>)
    requires n < 65536 && (reason == [] || IsSpace(reason[0]))
    ensures ParseStatus(StatusCode(Decimal(n) + reason)) == n
  {
    hide Decimal, DecimalValue;
    var s := Decimal(n) + reason;
    assert IsDigit(Decimal(n)[0]);
    assert s[0] == Decimal(n)[0] && TrimStart(s) == s;
    var k := WordLength(s);
    assert forall i :: 0 <= i < |Decimal(n)| ==> IsDigit(s[i]);
    assert reason != [] ==> s[|Decimal(n)|] == reason[0];
    assert k == |Decimal(n)|;
    assert s[..k] == Decimal(n);
    DecimalReadsBack(n);
  }

  /** A GOAWAY frame ends the reading, and so does a reply that breaks off. */
  lemma ReadingIsRefused(stream: nat, payload: seq<byte>, more: seq<byte>, input: seq<byte>, expected: nat, r: Response,
                         sent: seq<seq<byte>>)
    requires stream < 0x8000_0000 && |payload| < 0x100_0000
    ensures Read(FrameBytes(7, 0, stream, payload) + more, expected, r, sent) == Err(Refused)
    ensures |input| < 9 || |input| < 9 + WireLength(input) ==> Read(input, expected, r, sent) == Err(Refused)
  {
    hide FrameBytes, WireLength, FrameAt, ClientFields;
    FrameReadsBack(7, 0, stream, payload, more);
  }
}
