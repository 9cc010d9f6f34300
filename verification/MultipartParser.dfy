/** The multipart parser as the source runs it, index by index
    (src/fastapi_mojo_rs/src/bridge/multipart.rs). */
module MultipartParser {
  import opened Wrappers
  import opened Bits
  import opened AsciiText
  import opened Texts
  import opened Searching
  import opened Multipart
  import Base64
  import MultipartOverrun

  /** The position after blanks. */
  method PastBlanks(s: seq<byte>, start: nat) returns (j: nat)
    requires start <= |s|
    ensures start <= j <= |s| && s[j..] == SkipBlanks(s[start..])
  {
    j := start;
    while j < |s| && IsBlank(s[j])
      invariant start <= j <= |s| && SkipBlanks(s[start..]) == SkipBlanks(s[j..])
    {
      assert s[j..][1..] == s[j + 1..];
      j := j + 1;
    }
  }

  /** The end of the run without stops. */
  method RunEnd(s: seq<byte>, start: nat, stops: set<byte>) returns (e: nat)
    requires start <= |s|
    ensures start <= e <= |s| && s[start..e] == s[start..][..RunLength(s[start..], stops)]
  {
    e := start;
    while e < |s| && s[e] !in stops
      invariant start <= e <= |s| && RunLength(s[start..], stops) == (e - start) + RunLength(s[e..], stops)
    {
      assert s[e..][1..] == s[e + 1..];
      e := e + 1;
    }
  }

  /** Compares at a position, ignoring case. */
  method MatchesNoCase(s: seq<byte>, i: nat, needle: seq<byte>) returns (ok: bool)
    requires i + |needle| <= |s|
    ensures ok <==> Lowered(s[i..i + |needle|]) == needle
  {
    ghost var window := s[i..i + |needle|];
    for j := 0 to |needle|
      invariant Lowered(window)[..j] == needle[..j]
    {
      if Lower(s[i + j]) != needle[j] {
        assert Lowered(window)[j] != needle[j];
        return false;
      }
      assert Lowered(window)[..j + 1] == Lowered(window)[..j] + [Lower(s[i + j])];
      assert needle[..j + 1] == needle[..j] + [needle[j]];
    }
    assert Lowered(window)[..|needle|] == Lowered(window) && needle[..|needle|] == needle;
    return true;
  }

  method ExtractBoundary(contentType: seq<byte>) returns (r: Option<seq<byte>>)
    ensures r == Boundary(contentType)
  {
    hide Lowered, Ascii, SkipBlanks, RunLength, Boundary, BoundaryValue;
    var n, i := |contentType|, 0;
    assert contentType[0..] == contentType;
    while i + 8 <= n
      invariant 0 <= i <= n && Boundary(contentType) == Boundary(contentType[i..])
      decreases n - i
    {
      BoundaryStep(contentType, i);
      var ok := MatchesNoCase(contentType, i, Ascii("boundary"));
      if !ok {
        i := i + 1;
        continue;
      }
      var j := PastBlanks(contentType, i + 8);
      if j >= n || contentType[j] != EQUALS {
        i := i + 1;
        continue;
      }
      assert contentType[j..][1..] == contentType[j + 1..];
      r := ValueFrom(contentType, j + 1);
      return;
    }
    BoundaryStep(contentType, i);
    return None;
  }

  lemma BoundaryStep(contentType: seq<byte>, i: nat)
    requires i <= |contentType|
    ensures Boundary(contentType[i..])
            == if i + 8 > |contentType| then None
               else
                 var after := SkipBlanks(contentType[i + 8..]);
                 if Lowered(contentType[i..i + 8]) == Ascii("boundary") && Begins(after, EQUALS) then
                   BoundaryValue(after[1..])
                 else Boundary(contentType[i + 1..])
  {
  }

  /** The parameter value after the equals sign. */
  method ValueFrom(contentType: seq<byte>, start: nat) returns (r: Option<seq<byte>>)
    requires start <= |contentType|
    ensures r == BoundaryValue(contentType[start..])
  {
    hide SkipBlanks, RunLength;
    var b := PastBlanks(contentType, start);
    ghost var v := contentType[b..];
    if b < |contentType| && contentType[b] == QUOTE {
      b := b + 1;
      assert v[1..] == contentType[b..];
    }
    var e := RunEnd(contentType, b, BOUNDARY_STOPS);
    return if e > b then Some(contentType[b..e]) else None;
  }

  method ExtractAttribute(header: seq<byte>, name: seq<byte>) returns (r: Option<seq<byte>>)
    requires Lowered(name) == name && name != []
    ensures r == Attribute(header, name)
  {
    hide Search, SkipBlanks, RunLength, Found, Occurs;
    var n, i := |header|, 0;
    ghost var lowered, needle := Lowered(header), name + [EQUALS];
    assert lowered[0..] == lowered;
    FoundFromStart(lowered, needle);
    FoundStep(lowered, i, needle);
    while i + |name| < n
      invariant 0 <= i <= n && Search(lowered, needle) == Found(lowered, i, needle)
      decreases n - i
    {
      FoundStep(lowered, i, needle);
      AttributeHere(header, name, i);
      var ok := MatchesNoCase(header, i, name);
      if !ok || header[i + |name|] != EQUALS {
        i := i + 1;
        continue;
      }
      var value := i + |name| + 1;
      var b := PastBlanks(header, value);
      if b < n && header[b] == QUOTE {
        assert header[b..][1..] == header[b + 1..];
        var e := RunEnd(header, b + 1, {QUOTE});
        return Some(header[b + 1..e]);
      }
      var e := RunEnd(header, b, ATTRIBUTE_STOPS);
      return Some(header[b..e]);
    }
    FoundStep(lowered, i, needle);
    return None;
  }

  lemma FoundFromStart(s: seq<byte>, needle: seq<byte>)
    ensures Found(s, 0, needle) == Search(s, needle)
  {
    assert s[0..] == s;
  }

  lemma AttributeHere(header: seq<byte>, name: seq<byte>, i: nat)
    requires i + |name| < |header|
    ensures Occurs(Lowered(header), name + [EQUALS], i)
            <==> Lowered(header[i..i + |name|]) == name && header[i + |name|] == EQUALS
  {
    var window := Lowered(header)[i..i + |name| + 1];
    assert window == Lowered(header[i..i + |name|]) + [Lower(header[i + |name|])];
    assert Lower(header[i + |name|]) == EQUALS <==> header[i + |name|] == EQUALS;
    if window == name + [EQUALS] {
      assert window[..|name|] == name && window[|name|] == EQUALS;
    }
  }

  /** The position of the next such byte, or the end. */
  method Scan(s: seq<byte>, start: nat, b: byte) returns (end: nat)
    requires start <= |s|
    ensures end == start + Find(s[start..], b)
  {
    end := start;
    while end < |s| && s[end] != b
      invariant start <= end <= |s| && Find(s[start..], b) == (end - start) + Find(s[end..], b)
    {
      assert s[end..][1..] == s[end + 1..];
      end := end + 1;
    }
  }

  function Moved(r: Option<Split>, distance: nat): Option<Split> {
    match r case None => None case Some(Split(h, b)) => Some(Split(h + distance, b + distance))
  }

  /** The header block of the part from position i on. */
  function SplitFrom(part: seq<byte>, i: nat): Option<Split>
    requires i <= |part|
  {
    Moved(SplitHeaders(part[i..]), i)
  }

  lemma SplitStep(part: seq<byte>, i: nat)
    requires i <= |part|
    ensures var end := i + Find(part[i..], LF);
            SplitFrom(part, i)
            == if i == |part| then None
               else if end == i then Some(Split(i, i + 1))
               else if end == i + 1 && part[i] == CR then Some(Split(i, i + 2))
               else if end == |part| then None
               else SplitFrom(part, end + 1)
  {
  }

  method SplitPartHeaders(part: seq<byte>) returns (r: Option<Split>)
    ensures r == SplitHeaders(part)
  {
    hide SplitFrom, SplitHeaders;
    var n, i := |part|, 0;
    WholeSplit(part);
    while i < n
      invariant 0 <= i <= n && SplitHeaders(part) == SplitFrom(part, i)
    {
      SplitStep(part, i);
      var end := Scan(part, i, LF);
      if end == i {
        return Some(Split(i, i + 1));
      }
      var actual := if part[end - 1] == CR then end - 1 else end;
      if actual == i {
        return Some(Split(i, end + 1));
      }
      if end == n {
        return None;
      }
      i := end + 1;
    }
    SplitStep(part, i);
    return None;
  }

  lemma WholeSplit(part: seq<byte>)
    ensures SplitFrom(part, 0) == SplitHeaders(part)
  {
    assert part[0..] == part;
  }

  method ParseLine(line: seq<byte>) returns (r: Option<HeaderLine>)
    ensures r == ParseHeaderLine(line)
  {
    hide Lowered;
    var colon := Scan(line, 0, COLON);
    assert line[0..] == line;
    if colon == 0 || colon >= |line| {
      return None;
    }
    var start := PastBlanks(line, colon + 1);
    return Some(HeaderLine(Lowered(line[..colon]), line[start..]));
  }

  method HandleLine(h: Headers, line: seq<byte>) returns (r: Headers)
    ensures r == ApplyLine(h, line)
  {
    hide ParseHeaderLine, Attribute, Ascii;
    r := h;
    var parsed := ParseLine(line);
    if parsed.None? {
      return;
    }
    var HeaderLine(key, value) := parsed.value;
    if key == Ascii("content-disposition") {
      AttributeNames();
      var name := ExtractAttribute(value, Ascii("name"));
      if name.Some? {
        r := r.(name := name.value);
      }
      var filename := ExtractAttribute(value, Ascii("filename"));
      if filename.Some? {
        r := r.(filename := filename);
      }
    } else if key == Ascii("content-type") {
      r := r.(contentType := value);
    }
  }

  lemma AttributeNames()
    ensures Lowered(Ascii("name")) == Ascii("name") && Lowered(Ascii("filename")) == Ascii("filename")
    ensures Ascii("name") != [] && Ascii("filename") != []
  {
  }

  /** The line that starts at `start`, up to the LF at `end` and without a CR before it. */
  function LineAt(block: seq<byte>, start: nat, end: nat): seq<byte>
    requires start <= end <= |block|
  {
    block[start..if end > start && block[end - 1] == CR then end - 1 else end]
  }

  lemma LineIsLineAt(block: seq<byte>, start: nat, n: nat)
    requires start <= start + n <= |block|
    ensures Line(block[start..], n) == LineAt(block, start, start + n)
  {
  }

  lemma LinesStep(h: Headers, block: seq<byte>, start: nat)
    requires start < |block|
    ensures var end := start + Find(block[start..], LF);
            var line := LineAt(block, start, end);
            var h' := if line == [] then h else ApplyLine(h, line);
            ApplyLines(h, block[start..]) == if end == |block| then h' else ApplyLines(h', block[end + 1..])
  {
    hide ApplyLine, Line, LineAt, Find;
    var rest := block[start..];
    var n := Find(rest, LF);
    LineIsLineAt(block, start, n);
    if n < |rest| {
      assert rest[n + 1..] == block[start + n + 1..];
    }
  }

  method HandleLines(block: seq<byte>) returns (h: Headers)
    ensures h == ApplyLines(Headers([], None, []), block)
  {
    hide ApplyLine, ApplyLines;
    h := Headers([], None, []);
    var n, start := |block|, 0;
    assert block[0..] == block;
    while start < n
      invariant start <= n && ApplyLines(Headers([], None, []), block) == ApplyLines(h, block[start..])
      decreases n - start
    {
      LinesStep(h, block, start);
      var end := Scan(block, start, LF);
      var actual := if end > start && block[end - 1] == CR then end - 1 else end;
      if actual > start {
        h := HandleLine(h, block[start..actual]);
      }
      if end == n {
        return;
      }
      start := end + 1;
    }
    NoMoreLines(h, block[start..]);
  }

  lemma NoMoreLines(h: Headers, block: seq<byte>)
    requires block == []
    ensures ApplyLines(h, block) == h
  {
  }

  /** The parts of the last request parsed, kept for the application. */
  class MultipartState {
    var parts: seq<Part>
    var lastCount: int

    constructor ()
      ensures parts == [] && lastCount == -1
    {
      parts, lastCount := [], -1;
    }

    /** Parses one slice between delimiters. */
    static method ParseSlice(slice: seq<byte>) returns (piece: Piece)
      ensures piece == ParsePart(slice)
    {
      hide SplitHeaders, ApplyLines;
      var split := SplitPartHeaders(slice);
      if split.None? {
        return Skipped;
      }
      if split.value.body > |slice| {
        return OutOfRange;
      }
      var h := HandleLines(slice[..split.value.headers]);
      var body := slice[split.value.body..];
      var encoded: seq<byte> := [];
      if |body| <= MAX_ENCODED {
        encoded := Base64.EncodeBytes(body);
      }
      var untyped := h.contentType == [] && h.filename.Some?;
      var contentType := if untyped then Ascii("application/octet-stream") else h.contentType;
      if h.name == [] {
        return Skipped;
      }
      return Taken(Part(h.name, h.filename, contentType, body, encoded));
    }

    method Fail() returns (count: int)
      modifies this
      ensures parts == [] && lastCount == -1 && count == -1
    {
      parts, lastCount := [], -1;
      return -1;
    }

    /** Parses a body and keeps its parts; -1 for a failure.  The outcome -2 stands for the
        slice out of range, which ends the source program: it comes about exactly when a slice
        ends in a lone carriage return and has no blank line. */
    method ParseMultipart(body: seq<byte>, contentType: seq<byte>) returns (count: int)
      modifies this
      ensures var outcome := Parse(body, contentType);
              if outcome.Parts? then parts == outcome.parts && lastCount == |parts| && count == |parts|
              else if outcome.NotMultipart? then parts == [] && lastCount == -1 && count == -1
              else parts == old(parts) && lastCount == old(lastCount) && count == -2
      ensures count == -2 <==> MultipartOverrun.SomeOverruns(MultipartOverrun.FormSlices(body, contentType), 0)
    {
      hide Boundary, Found, ParseParts, MultipartOverrun.SomeOverruns, MultipartOverrun.FormSlices;
      MultipartOverrun.OverrunIff(body, contentType);
      var found := ExtractBoundary(contentType);
      if found.None? {
        count := Fail();
        return;
      }
      var boundary := found.value;
      if body == [] || boundary == [] {
        count := Fail();
        return;
      }
      var opening := [DASH, DASH] + boundary;
      var first := FindFrom(body, 0, opening);
      if first.None? {
        count := Fail();
        return;
      }
      FoundFits(body, 0, opening);
      var collected := Collect(body, SkipBreak(body, first.value + |opening|), Delimiter(boundary));
      if collected.None? {
        return -2;
      }
      parts := collected.value;
      lastCount := |parts|;
      count := |parts|;
    }

    static method Collect(body: seq<byte>, start: nat, delimiter: seq<byte>) returns (r: Option<seq<Part>>)
      requires start <= |body| && delimiter != []
      ensures r == ParseParts(body, start, 0, delimiter, [])
    {
      hide Found, ParsePart;
      var parts: seq<Part> := [];
      var partStart: nat, searchFrom: nat := start, 0;
      while true
        invariant partStart <= |body| && searchFrom <= |body|
        invariant ParseParts(body, start, 0, delimiter, []) == ParseParts(body, partStart, searchFrom, delimiter, parts)
        decreases |body| - searchFrom
      {
        var next := FindFrom(body, searchFrom, delimiter);
        if next.None? {
          return Some(parts);
        }
        FoundFits(body, searchFrom, delimiter);
        var after := next.value + |delimiter|;
        if next.value > partStart {
          var piece := ParseSlice(body[partStart..next.value]);
          if piece.OutOfRange? {
            return None;
          }
          if piece.Taken? {
            parts := parts + [piece.part];
          }
        }
        if IsLast(body, after) {
          return Some(parts);
        }
        if |parts| >= MAX_PARTS {
          return Some(parts);
        }
        partStart := SkipBreak(body, after);
        searchFrom := partStart;
      }
    }
  }
}
