/** HTTP/2 requests and how a decoded header list becomes one
    (src/fastapi_mojo_rs/src/bridge/http2_request.rs and http2.rs). */
module Http2Requests {
  import opened Wrappers
  import opened Bits
  import opened AsciiText
  import opened Decimals
  import opened Texts
  import opened Hpack

  datatype Request = Request(
    streamId: nat,
    method_: seq<byte>,
    path: seq<byte>,
    query: seq<byte>,
    authority: seq<byte>,
    headers: seq<Field>,
    body: seq<byte>)

  datatype RequestError =
    | InvalidHeader
    | MalformedPseudoHeader
    | BadPseudoHeader
    | MalformedRequest
    | QueryTooLarge
    | InvalidContentLength

  const MAX_FIELD: nat := 4096

  // ---------- header lookup ----------

  /** The first header with this name, ignoring ASCII case. */
  function FindHeader(headers: seq<Field>, name: seq<byte>): Option<seq<byte>> {
    if headers == [] then None
    else if Lowered(headers[0].name) == Lowered(name) then Some(headers[0].value)
    else FindHeader(headers[1..], name)
  }

  const USIZE_LIMIT: nat := 0x1_0000_0000_0000_0000

  /** The content-length header: absent, a 64-bit number, or an error. */
  function ContentLength(r: Request): Result<Option<nat>, RequestError> {
    match FindHeader(r.headers, Ascii("content-length"))
    case None => Ok(None)
    case Some(value) =>
      if value == [] || !AllDigits(value) || DecimalValue(value) >= USIZE_LIMIT then Err(InvalidContentLength)
      else Ok(Some(DecimalValue(value)))
  }

  // ---------- from header fields to a request ----------

  /** What the field scan has collected so far. */
  datatype Head = Head(
    method_: seq<byte>,
    path: seq<byte>,
    authority: seq<byte>,
    scheme: seq<byte>,
    headers: seq<Field>)

  predicate Unsafe(b: byte) {
    b == 0 || b == 13 || b == 10
  }

  predicate CleanText(s: seq<byte>) {
    forall i :: 0 <= i < |s| ==> !Unsafe(s[i])
  }

  predicate HasUpper(s: seq<byte>) {
    exists i :: 0 <= i < |s| && 65 <= s[i] <= 90
  }

  predicate ConnectionSpecific(name: seq<byte>) {
    || name == Ascii("connection") || name == Ascii("keep-alive") || name == Ascii("proxy-connection")
    || name == Ascii("te") || name == Ascii("transfer-encoding") || name == Ascii("upgrade")
  }

  predicate IsPseudo(name: seq<byte>) {
    name != [] && name[0] == 58
  }

  /** One step of the scan.  A pseudo-header counts as seen only once it is not empty. */
  function AddHeader(h: Head, f: Field): Result<Head, RequestError> {
    if |f.value| > MAX_FIELD || !CleanText(f.name) || !CleanText(f.value) then Err(InvalidHeader)
    else if IsPseudo(f.name) then
      if h.headers != [] then Err(MalformedPseudoHeader)
      else if f.name == Ascii(":method") && h.method_ == [] then Ok(h.(method_ := f.value))
      else if f.name == Ascii(":path") && h.path == [] then Ok(h.(path := f.value))
      else if f.name == Ascii(":authority") && h.authority == [] then Ok(h.(authority := f.value))
      else if f.name == Ascii(":scheme") && h.scheme == [] then Ok(h.(scheme := f.value))
      else Err(BadPseudoHeader)
    else if f.name == [] || HasUpper(f.name) || ConnectionSpecific(f.name) then Err(InvalidHeader)
    else Ok(h.(headers := h.headers + [f]))
  }

  function AddHeaders(h: Head, fields: seq<Field>): Result<Head, RequestError>
    decreases |fields|
  {
    if fields == [] then Ok(h)
    else
      match AddHeader(h, fields[0])
      case Err(e) => Err(e)
      case Ok(h') => AddHeaders(h', fields[1..])
  }

  const QUESTION_MARK: byte := 63

  function MakeRequest(stream: nat, h: Head): Result<Request, RequestError> {
    if |h.method_| > 15 || h.scheme == [] || h.path == [] || h.path[0] != 47 || |h.path| > 1023
       || |h.authority| > MAX_FIELD then Err(MalformedRequest)
    else
      var q := Find(h.path, QUESTION_MARK);
      var query := if q < |h.path| then h.path[q + 1..] else [];
      if |query| > 1023 then Err(QueryTooLarge)
      else Ok(Request(stream, h.method_, h.path[..q], query, h.authority, h.headers, []))
  }

  /** The scan as the source runs it, field by field. */
  method BuildRequest(stream: nat, fields: seq<Field>) returns (r: Result<Request, RequestError>)
    ensures r == match AddHeaders(Head([], [], [], [], []), fields)
                 case Err(e) => Err(e)
                 case Ok(h) => MakeRequest(stream, h)
  {
    hide AddHeader, MakeRequest;
    var head := Head([], [], [], [], []);
    assert fields[0..] == fields;
    for i := 0 to |fields|
      invariant AddHeaders(Head([], [], [], [], []), fields) == AddHeaders(head, fields[i..])
    {
      assert fields[i..][1..] == fields[i + 1..];
      var next := AddHeader(head, fields[i]);
      if next.Err? {
        return Err(next.error);
      }
      head := next.value;
    }
    r := MakeRequest(stream, head);
  }

  // ---------- what every accepted request satisfies ----------

  predicate CleanField(f: Field) {
    CleanText(f.name) && CleanText(f.value) && |f.value| <= MAX_FIELD
    && f.name != [] && !IsPseudo(f.name) && !HasUpper(f.name) && !ConnectionSpecific(f.name)
  }

  predicate CleanHead(h: Head) {
    && CleanText(h.method_) && CleanText(h.path) && CleanText(h.authority)
    && forall i :: 0 <= i < |h.headers| ==> CleanField(h.headers[i])
  }

  /** A request the server may act on: no control bytes that could split a header, no
      connection-specific or pseudo fields among the headers, bounded method, path and
      query, and a path that starts with a slash. */
  predicate WellFormed(r: Request) {
    && |r.method_| <= 15 && CleanText(r.method_)
    && |r.path| <= 1023 && |r.query| <= 1023 && r.path != [] && r.path[0] == 47
    && CleanText(r.path) && CleanText(r.query) && CleanText(r.authority) && |r.authority| <= MAX_FIELD
    && 63 !in r.path
    && forall i :: 0 <= i < |r.headers| ==> CleanField(r.headers[i])
  }

  lemma {:induction false} HeadersStayClean(h: Head, fields: seq<Field>)
    requires CleanHead(h) && AddHeaders(h, fields).Ok?
    ensures CleanHead(AddHeaders(h, fields).value)
    decreases |fields|
  {
    if fields != [] {
      HeadersStayClean(AddHeader(h, fields[0]).value, fields[1..]);
    }
  }

  lemma RequestIsWellFormed(stream: nat, fields: seq<Field>)
    requires AddHeaders(Head([], [], [], [], []), fields).Ok?
    requires MakeRequest(stream, AddHeaders(Head([], [], [], [], []), fields).value).Ok?
    ensures WellFormed(MakeRequest(stream, AddHeaders(Head([], [], [], [], []), fields).value).value)
  {
    HeadersStayClean(Head([], [], [], [], []), fields);
  }
}
