/** Parsing multipart/form-data bodies (RFC 7578; src/fastapi_mojo_rs/src/bridge/multipart.rs). */
module Multipart {
  import opened Wrappers
  import opened Bits
  import opened AsciiText
  import opened Texts
  import opened Searching
  import Base64

  const MAX_PARTS: nat := 32
  const MAX_ENCODED: nat := 16777216

  const CR: byte := 13
  const LF: byte := 10
  const QUOTE: byte := 34
  const DASH: byte := 45
  const COLON: byte := 58
  const SEMICOLON: byte := 59
  const EQUALS: byte := 61

  predicate IsBlank(b: byte) {
    b == 32 || b == 9
  }

  function SkipBlanks(s: seq<byte>): (r: seq<byte>)
    ensures |r| <= |s| && (r == [] || !IsBlank(r[0]))
  {
    if s != [] && IsBlank(s[0]) then SkipBlanks(s[1..]) else s
  }

  predicate Begins(s: seq<byte>, b: byte) {
    s != [] && s[0] == b
  }

  /** The length of the leading run without any of the stops. */
  function RunLength(s: seq<byte>, stops: set<byte>): (n: nat)
    ensures n <= |s| && (n < |s| ==> s[n] in stops) && forall i :: 0 <= i < n ==> s[i] !in stops
  {
    if s == [] || s[0] in stops then 0 else 1 + RunLength(s[1..], stops)
  }

  // ---------- the boundary ----------

  const BOUNDARY_STOPS: set<byte> := {SEMICOLON, QUOTE, CR, LF}

  /** The value after the equals sign of the boundary parameter. */
  function BoundaryValue(s: seq<byte>): Option<seq<byte>> {
    var v := SkipBlanks(s);
    var unquoted := if Begins(v, QUOTE) then v[1..] else v;
    var value := unquoted[..RunLength(unquoted, BOUNDARY_STOPS)];
    if value == [] then None else Some(value)
  }

  /** The first `boundary`, in any case, that an equals sign follows. */
  function Boundary(contentType: seq<byte>): Option<seq<byte>> {
    if |contentType| < 8 then None
    else
      var after := SkipBlanks(contentType[8..]);
      if Lowered(contentType[..8]) == Ascii("boundary") && Begins(after, EQUALS) then BoundaryValue(after[1..])
      else Boundary(contentType[1..])
  }

  // ---------- part headers ----------

  const ATTRIBUTE_STOPS: set<byte> := {SEMICOLON, 32, 9}

  function AttributeValue(s: seq<byte>): seq<byte> {
    var v := SkipBlanks(s);
    if Begins(v, QUOTE) then v[1..][..RunLength(v[1..], {QUOTE})] else v[..RunLength(v, ATTRIBUTE_STOPS)]
  }

  /** The value after the first `attribute=`, in any case. */
  function Attribute(header: seq<byte>, name: seq<byte>): Option<seq<byte>> {
    match Search(Lowered(header), name + [EQUALS])
    case None => None
    case Some(at) =>
      SearchMeans(Lowered(header), name + [EQUALS]);
      Some(AttributeValue(header[at + |name| + 1..]))
  }

  /** The end of the header block and the start of the body. */
  datatype Split = Split(headers: nat, body: nat)

  function SplitHeaders(part: seq<byte>): (r: Option<Split>)
    ensures r.Some? ==> r.value.headers <= r.value.body <= |part| + 1
    ensures r.Some? ==> r.value.headers <= |part|
    decreases |part|
  {
    if part == [] then None
    else
      var end := Find(part, LF);
      if end == 0 then Some(Split(0, 1))
      else if end == 1 && part[0] == CR then Some(Split(0, 2))
      else if end == |part| then None
      else
        match SplitHeaders(part[end + 1..])
        case None => None
        case Some(Split(h, b)) => Some(Split(h + end + 1, b + end + 1))
  }

  datatype HeaderLine = HeaderLine(key: seq<byte>, value: seq<byte>)

  function ParseHeaderLine(line: seq<byte>): Option<HeaderLine> {
    var colon := Find(line, COLON);
    if colon == 0 || colon == |line| then None
    else Some(HeaderLine(Lowered(line[..colon]), SkipBlanks(line[colon + 1..])))
  }

  /** What the headers of a part say. */
  datatype Headers = Headers(name: seq<byte>, filename: Option<seq<byte>>, contentType: seq<byte>)

  function ApplyLine(h: Headers, line: seq<byte>): Headers {
    match ParseHeaderLine(line)
    case None => h
    case Some(HeaderLine(key, value)) =>
      if key == Ascii("content-disposition") then
        var name, filename := Attribute(value, Ascii("name")), Attribute(value, Ascii("filename"));
        Headers(if name.Some? then name.value else h.name,
                if filename.Some? then filename else h.filename, h.contentType)
      else if key == Ascii("content-type") then h.(contentType := value)
      else h
  }

  /** A line without the carriage return at its end. */
  function Line(s: seq<byte>, end: nat): seq<byte>
    requires end <= |s|
  {
    if end > 0 && s[end - 1] == CR then s[..end - 1] else s[..end]
  }

  function ApplyLines(h: Headers, block: seq<byte>): Headers
    decreases |block|
  {
    if block == [] then h
    else
      var end := Find(block, LF);
      var line := Line(block, end);
      var h' := if line == [] then h else ApplyLine(h, line);
      if end == |block| then h' else ApplyLines(h', block[end + 1..])
  }

  datatype Part = Part(name: seq<byte>, filename: Option<seq<byte>>, contentType: seq<byte>, body: seq<byte>,
                       encoded: seq<byte>)

  function MakePart(h: Headers, body: seq<byte>): Part {
    Part(h.name, h.filename,
         if h.contentType == [] && h.filename.Some? then Ascii("application/octet-stream") else h.contentType,
         body, if |body| <= MAX_ENCODED then Base64.Encode(body) else [])
  }

  /** No part, a part, or a slice that would start past the end. */
  datatype Piece = Skipped | Taken(part: Part) | OutOfRange

  function ParsePart(slice: seq<byte>): Piece {
    match SplitHeaders(slice)
    case None => Skipped
    case Some(Split(headers, body)) =>
      if body > |slice| then OutOfRange
      else
        var h := ApplyLines(Headers([], None, []), slice[..headers]);
        if h.name == [] then Skipped else Taken(MakePart(h, slice[body..]))
  }

  // ---------- the whole body ----------

  function Delimiter(boundary: seq<byte>): seq<byte> {
    [CR, LF, DASH, DASH] + boundary
  }

  /** Past an optional CR and an optional LF. */
  function SkipBreak(body: seq<byte>, at: nat): (r: nat)
    requires at <= |body|
    ensures at <= r <= |body|
  {
    var a := if at < |body| && body[at] == CR then at + 1 else at;
    if a < |body| && body[a] == LF then a + 1 else a
  }

  predicate IsLast(body: seq<byte>, after: nat) {
    after + 1 < |body| && body[after] == DASH && body[after + 1] == DASH
  }

  /** Parts from `start` on; the next delimiter is searched from `from`.  None stands for a
      slice that starts past its end. */
  function ParseParts(body: seq<byte>, start: nat, from: nat, delimiter: seq<byte>, parts: seq<Part>): Option<seq<Part>>
    requires start <= |body| && from <= |body| && delimiter != []
    decreases |body| - from
  {
    match Found(body, from, delimiter)
    case None => Some(parts)
    case Some(next) =>
      FoundFits(body, from, delimiter);
      var after := next + |delimiter|;
      var piece := if next > start then ParsePart(body[start..next]) else Skipped;
      if piece.OutOfRange? then None
      else
        var parts' := if piece.Taken? then parts + [piece.part] else parts;
        if IsLast(body, after) || |parts'| >= MAX_PARTS then Some(parts')
        else ParseParts(body, SkipBreak(body, after), SkipBreak(body, after), delimiter, parts')
  }

  lemma FoundFits(s: seq<byte>, i: nat, needle: seq<byte>)
    requires i <= |s|
    ensures var at := Found(s, i, needle);
            at.Some? ==>
              && i <= at.value && at.value + |needle| <= |s| && Occurs(s, needle, at.value)
              && forall p :: i <= p < at.value ==> !Occurs(s, needle, p)
  {
    SearchMeans(s[i..], needle);
    var at := Search(s[i..], needle);
    assert s[..i] + s[i..] == s;
    if at.Some? {
      OccursShifted(s[..i], s[i..], needle, at.value);
      forall p | i <= p < at.value + i ensures !Occurs(s, needle, p) {
        OccursShifted(s[..i], s[i..], needle, p - i);
      }
    }
  }

  /** The outcome of parsing: failure, the parts, or an index out of range. */
  datatype Outcome = NotMultipart | Parts(parts: seq<Part>) | Overrun

  function Parse(body: seq<byte>, contentType: seq<byte>): Outcome {
    match Boundary(contentType)
    case None => NotMultipart
    case Some(boundary) =>
      if body == [] || boundary == [] then NotMultipart
      else
        var opening := [DASH, DASH] + boundary;
        match Found(body, 0, opening)
        case None => NotMultipart
        case Some(first) =>
          FoundFits(body, 0, opening);
          match ParseParts(body, SkipBreak(body, first + |opening|), 0, Delimiter(boundary), [])
          case None => Overrun
          case Some(parts) => Parts(parts)
  }
}
