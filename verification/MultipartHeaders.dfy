/** What a multipart parser takes from any part and from any content type: where the headers
    end, what each line says, and how attributes and boundaries may be written
    (src/fastapi_mojo_rs/src/bridge/multipart.rs). */
module MultipartHeaders {
  import opened Wrappers
  import opened Bits
  import opened AsciiText
  import opened Texts
  import opened Searching
  import opened Multipart
  import opened MultipartRoundTrip
  import Base64

  // ---------- where the headers end ----------

  /** A line without text starts at h: nothing, or one carriage return, before the line feed
      or, for the return, before the end. */
  predicate EmptyLineAt(part: seq<byte>, h: nat) {
    && h < |part| && (h == 0 || part[h - 1] == 10)
    && (part[h] == 10 || (part[h] == 13 && (h + 1 == |part| || part[h + 1] == 10)))
  }

  /** The headers are all that comes before the first such line, and the body all behind it. */
  predicate Separates(part: seq<byte>, h: nat, b: nat) {
    && EmptyLineAt(part, h) && (forall k: nat :: k < h ==> !EmptyLineAt(part, k))
    && b == if part[h] == 10 then h + 1 else h + 2
  }

  lemma FirstLineFull(part: seq<byte>, end: nat)
    requires end < |part| && part[end] == 10 && (forall i :: 0 <= i < end ==> part[i] != 10)
    requires end > 0 && !(end == 1 && part[0] == 13)
    ensures forall k: nat :: k <= end ==> !EmptyLineAt(part, k)
    ensures forall k: nat :: k > end ==> (EmptyLineAt(part, k) <==> EmptyLineAt(part[end + 1..], k - end - 1))
  {
  }

  /** A part is split exactly at its first empty line, ended by a bare line feed or not. */
  lemma {:induction false} SplitIff(part: seq<byte>, h: nat, b: nat)
    ensures SplitHeaders(part) == Some(Split(h, b)) <==> Separates(part, h, b)
    decreases |part|
  {
    hide Separates, Find;
    if part == [] {
      NotSeparated(part, h, b);
    } else {
      var end := Find(part, LF);
      if end == 0 || (end == 1 && part[0] == CR) {
        SeparatedFirst(part, h, b);
      } else if end == |part| {
        NotSeparated(part, h, b);
      } else {
        var tail := part[end + 1..];
        SeparatesLater(part, end, h, b);
        if h > end && b > end {
          SplitIff(tail, h - end - 1, b - end - 1);
        }
      }
    }
  }

  lemma NotSeparated(part: seq<byte>, h: nat, b: nat)
    requires (forall i :: 0 <= i < |part| ==> part[i] != 10) && part != [13]
    ensures !Separates(part, h, b)
  {
    hide EmptyLineAt;
    NoEmptyLine(part, h);
  }

  lemma SeparatedFirst(part: seq<byte>, h: nat, b: nat)
    requires part != [] && (part[0] == 10 || (part[0] == 13 && (|part| == 1 || part[1] == 10)))
    ensures Separates(part, h, b) <==> h == 0 && b == if part[0] == 10 then 1 else 2
  {
    hide EmptyLineAt;
    EmptyLineFirst(part);
  }

  lemma EmptyLineFirst(part: seq<byte>)
    requires part != [] && (part[0] == 10 || (part[0] == 13 && (|part| == 1 || part[1] == 10)))
    ensures EmptyLineAt(part, 0)
  {
  }

  lemma NoEmptyLine(part: seq<byte>, h: nat)
    requires (forall i :: 0 <= i < |part| ==> part[i] != 10) && part != [13]
    ensures !EmptyLineAt(part, h)
  {
  }

  lemma SeparatesLater(part: seq<byte>, end: nat, h: nat, b: nat)
    requires end < |part| && part[end] == 10 && (forall i :: 0 <= i < end ==> part[i] != 10)
    requires end > 0 && !(end == 1 && part[0] == 13)
    ensures Separates(part, h, b) <==> h > end && b > end && Separates(part[end + 1..], h - end - 1, b - end - 1)
  {
    hide EmptyLineAt;
    FirstLineFull(part, end);
    if h > end {
      SeparatesInTail(part, end, h, b);
    }
  }

  lemma SeparatesInTail(part: seq<byte>, end: nat, h: nat, b: nat)
    requires end < |part| && part[end] == 10 && (forall i :: 0 <= i < end ==> part[i] != 10)
    requires end > 0 && !(end == 1 && part[0] == 13) && h > end
    ensures Separates(part, h, b) <==> b > end && Separates(part[end + 1..], h - end - 1, b - end - 1)
  {
    hide EmptyLineAt;
    FirstLineFull(part, end);
    var tail := part[end + 1..];
    EmptyLineInside(tail, h - end - 1);
    if EmptyLineAt(part, h) && forall k: nat :: k < h ==> !EmptyLineAt(part, k) {
      forall k: nat | k < h - end - 1 ensures !EmptyLineAt(tail, k) {
        assert !EmptyLineAt(part, end + 1 + k);
      }
    }
    if EmptyLineAt(part, h) && forall k: nat :: k < h - end - 1 ==> !EmptyLineAt(tail, k) {
      forall k: nat | k < h ensures !EmptyLineAt(part, k) {
        if k > end {
          assert !EmptyLineAt(tail, k - end - 1);
        }
      }
    }
  }

  lemma EmptyLineInside(part: seq<byte>, h: nat)
    ensures EmptyLineAt(part, h) ==> h < |part|
  {
  }

  // ---------- what the lines say ----------

  /** A line of text and whether a carriage return comes before its line feed. */
  datatype Written = Written(line: seq<byte>, crlf: bool)

  predicate GoodLine(w: Written) {
    LF !in w.line && (w.line != [] && !w.crlf ==> w.line[|w.line| - 1] != CR)
  }

  function LineText(w: Written): seq<byte> {
    w.line + if w.crlf then [13, 10] else [10]
  }

  function LinesText(ws: seq<Written>): seq<byte> {
    if ws == [] then [] else LineText(ws[0]) + LinesText(ws[1..])
  }

  /** The lines are carried out one after the other. */
  function CarriedOut(h: Headers, ws: seq<Written>): Headers
    decreases |ws|
  {
    if ws == [] then h else CarriedOut(ApplyLine(h, ws[0].line), ws[1..])
  }

  lemma {:induction false} LinesMean(h: Headers, ws: seq<Written>)
    requires forall i :: 0 <= i < |ws| ==> GoodLine(ws[i])
    ensures ApplyLines(h, LinesText(ws)) == CarriedOut(h, ws)
    decreases |ws|
  {
    hide ApplyLine, LineText;
    if ws != [] {
      OneLine(h, ws[0], LinesText(ws[1..]));
      LinesMean(ApplyLine(h, ws[0].line), ws[1..]);
    }
  }

  lemma OneLine(h: Headers, w: Written, rest: seq<byte>)
    requires GoodLine(w)
    ensures ApplyLines(h, LineText(w) + rest) == ApplyLines(ApplyLine(h, w.line), rest)
  {
    var block := LineText(w) + rest;
    var front := if w.crlf then w.line + [CR] else w.line;
    assert block == front + ([LF] + rest);
    FindAfter(front, LF, [LF] + rest);
    assert block[|front| + 1..] == rest;
    assert Line(block, |front|) == w.line by {
      assert block[..|w.line|] == w.line;
      assert w.line != [] ==> block[|w.line| - 1] == w.line[|w.line| - 1];
    }
    EmptyLineSaysNothing(h);
  }

  lemma EmptyLineSaysNothing(h: Headers)
    ensures ApplyLine(h, []) == h
  {
  }

  predicate AllBlank(s: seq<byte>) {
    forall i :: 0 <= i < |s| ==> s[i] == 32 || s[i] == 9
  }

  predicate StartsFull(s: seq<byte>) {
    s == [] || (s[0] != 32 && s[0] != 9)
  }

  lemma {:induction false} BlanksDropped(blanks: seq<byte>, s: seq<byte>)
    requires AllBlank(blanks) && StartsFull(s)
    ensures SkipBlanks(blanks + s) == s
  {
    if blanks == [] {
      assert blanks + s == s;
    } else {
      assert (blanks + s)[1..] == blanks[1..] + s;
      BlanksDropped(blanks[1..], s);
    }
  }

  /** A key in any case, a colon, any blanks and a value. The type is the value as it stands;
      of a disposition the two attributes count, and each stays as it was if it is missing;
      other keys say nothing. */
  lemma FieldLineMeans(h: Headers, key: seq<byte>, blanks: seq<byte>, value: seq<byte>)
    requires key != [] && 58 !in key && AllBlank(blanks) && StartsFull(value)
    ensures var after := ApplyLine(h, key + ([58] + (blanks + value)));
            var name, file := Attribute(value, Ascii("name")), Attribute(value, Ascii("filename"));
            && (Lowered(key) == Ascii("content-type") ==> after == h.(contentType := value))
            && (Lowered(key) == Ascii("content-disposition") ==>
                  && after.name == (if name.Some? then name.value else h.name)
                  && after.filename == (if file.Some? then file else h.filename)
                  && after.contentType == h.contentType)
            && (Lowered(key) !in {Ascii("content-type"), Ascii("content-disposition")} ==> after == h)
  {
    hide Ascii, Attribute, Lowered;
    var line := key + ([58] + (blanks + value));
    FindAfter(key, COLON, [58] + (blanks + value));
    assert line[..|key|] == key && line[|key| + 1..] == blanks + value;
    BlanksDropped(blanks, value);
    assert ParseHeaderLine(line) == Some(HeaderLine(Lowered(key), value));
    KeysDiffer();
  }

  lemma KeysDiffer()
    ensures Ascii("content-type") != Ascii("content-disposition")
  {
    assert |Ascii("content-type")| != |Ascii("content-disposition")|;
  }

  /** A line without a colon, or with one in front, says nothing. */
  lemma OtherLinesSayNothing(h: Headers, line: seq<byte>)
    requires 58 !in line || line[0] == 58
    ensures ApplyLine(h, line) == h
  {
  }

  // ---------- attributes ----------

  /** How a value may be written: in quotes, up to the closing one, or bare, up to a blank, a
      semicolon or the end. */
  predicate Writes(form: seq<byte>, value: seq<byte>, tail: seq<byte>) {
    || (form == [34] + value + [34] && 34 !in value)
    || (form == [34] + value && 34 !in value && tail == [])
    || (&& form == value && (value != [] ==> value[0] != 34) && 59 !in value && 32 !in value && 9 !in value
        && (tail == [] || tail[0] == 59 || (value != [] && tail[0] in {32, 9})))
  }

  lemma ValueIsRead(blanks: seq<byte>, form: seq<byte>, value: seq<byte>, tail: seq<byte>)
    requires AllBlank(blanks) && Writes(form, value, tail)
    ensures AttributeValue(blanks + (form + tail)) == value
  {
    if form == [34] + value + [34] && 34 !in value {
      BlanksDropped(blanks, form + tail);
      var after := [34] + tail;
      assert (form + tail)[1..] == value + after;
      RunStops(value, after, {QUOTE});
      assert (value + after)[..|value|] == value;
    } else if form == [34] + value && 34 !in value && tail == [] {
      BlanksDropped(blanks, form + tail);
      assert (form + tail)[1..] == value + [];
      RunStops(value, [], {QUOTE});
      assert (value + [])[..|value|] == value;
    } else {
      BlanksDropped(blanks, form + tail);
      RunStops(value, tail, ATTRIBUTE_STOPS);
      assert (value + tail)[..|value|] == value;
    }
  }

  /** The first place where the name, in any case, is followed by an equals sign gives the
      attribute, whatever comes before it. */
  lemma AttributeIsRead(name: seq<byte>, front: seq<byte>, key: seq<byte>, blanks: seq<byte>, form: seq<byte>,
                        value: seq<byte>, tail: seq<byte>)
    requires Lowered(key) == name && AllBlank(blanks) && Writes(form, value, tail)
    requires var header := front + (key + [61] + (blanks + (form + tail)));
             forall p :: 0 <= p < |front| ==> !Occurs(Lowered(header), name + [61], p)
    ensures Attribute(front + (key + [61] + (blanks + (form + tail))), name) == Some(value)
  {
    hide Occurs, Search, AttributeValue, Writes, AllBlank;
    var rest := blanks + (form + tail);
    var header := front + (key + [61] + rest);
    LoweredConcat(front, key + [61] + rest);
    LoweredConcat(key + [61], rest);
    LoweredConcat(key, [61]);
    EqualsLowered();
    var after := name + [61] + Lowered(rest);
    SearchSkips(Lowered(front), after, name + [61]);
    assert name + [61] <= after;
    FoundAtStart(name + [61], Lowered(rest));
    assert header[|front| + |name| + 1..] == rest;
    ValueIsRead(blanks, form, value, tail);
  }

  lemma EqualsLowered()
    ensures Lowered([61]) == [61]
  {
  }

  lemma FoundAtStart(needle: seq<byte>, rest: seq<byte>)
    ensures Search(needle + rest, needle) == Some(0)
  {
  }

  /** Without such a place there is no attribute. */
  lemma AttributeIsMissing(name: seq<byte>, header: seq<byte>)
    requires forall p: nat :: !Occurs(Lowered(header), name + [61], p)
    ensures Attribute(header, name) == None
  {
    hide Occurs, Search;
    SearchMeans(Lowered(header), name + [61]);
  }

  // ---------- boundaries ----------

  /** The boundary may be named in any case, with blanks around the equals sign, bare up to a
      semicolon, a quote or a line break, or in quotes. */
  lemma BoundaryIsRead(front: seq<byte>, key: seq<byte>, before: seq<byte>, after: seq<byte>, quoted: bool,
                       boundary: seq<byte>, tail: seq<byte>)
    requires 98 !in front && 66 !in front && Lowered(key) == Ascii("boundary") && AllBlank(before) && AllBlank(after)
    requires boundary != [] && forall i :: 0 <= i < |boundary| ==> boundary[i] !in {59, 34, 13, 10}
    requires tail == [] || tail[0] in {59, 34, 13, 10}
    requires quoted || !(boundary[0] == 32 || boundary[0] == 9)
    ensures var value := (if quoted then [34] else []) + boundary + tail;
            Boundary(front + (key + (before + ([61] + (after + value))))) == Some(boundary)
  {
    hide Ascii, Lowered, BoundaryValue;
    BoundaryWords();
    var value := (if quoted then [34] else []) + boundary + tail;
    var rest := [61] + (after + value);
    var s := key + (before + rest);
    NoBoundaryIn(front, s);
    assert |Ascii("boundary")| == 8;
    assert s[..8] == key && s[8..] == before + rest;
    BlanksDropped(before, rest);
    assert rest[1..] == after + value;
    assert Boundary(s) == BoundaryValue(after + value);
    BoundaryValueIsRead(after, quoted, boundary, tail);
  }

  lemma BoundaryValueIsRead(blanks: seq<byte>, quoted: bool, boundary: seq<byte>, tail: seq<byte>)
    requires AllBlank(blanks)
    requires boundary != [] && forall i :: 0 <= i < |boundary| ==> boundary[i] !in {59, 34, 13, 10}
    requires tail == [] || tail[0] in {59, 34, 13, 10}
    requires quoted || !(boundary[0] == 32 || boundary[0] == 9)
    ensures BoundaryValue(blanks + ((if quoted then [34] else []) + boundary + tail)) == Some(boundary)
  {
    var value := (if quoted then [34] else []) + boundary + tail;
    BlanksDropped(blanks, value);
    RunStops(boundary, tail, BOUNDARY_STOPS);
    assert (boundary + tail)[..|boundary|] == boundary;
    assert quoted ==> value[1..] == boundary + tail;
    assert !quoted ==> value == boundary + tail;
  }

  // ---------- what becomes a part ----------

  /** A slice with a name becomes a part: everything behind the empty line is its body, a file
      without a type is an octet stream, and a body of up to 16 MiB is kept in base64 too. */
  lemma PartMeans(slice: seq<byte>, h: nat, b: nat)
    requires Separates(slice, h, b) && b <= |slice|
    ensures var said := ApplyLines(Headers([], None, []), slice[..h]);
            if said.name == [] then ParsePart(slice) == Skipped
            else
              && ParsePart(slice).Taken?
              && var part := ParsePart(slice).part;
              && part.name == said.name && part.filename == said.filename && part.body == slice[b..]
              && part.contentType == (if said.contentType != [] then said.contentType
                                      else if said.filename.Some? then Ascii("application/octet-stream") else [])
              && part.encoded == (if |part.body| <= 16777216 then Base64.Encode(part.body) else [])
  {
    hide Ascii, ApplyLines, Separates;
    SplitIff(slice, h, b);
  }

  // ---------- the bytes of a form ----------

  lemma SectionText(item: Item)
    ensures var file := if item.filename.Some? then Ascii("; filename=") + ([34] + item.filename.value + [34]) else [];
            var kind :=
              if item.contentType.Some? then Ascii("Content-Type: ") + item.contentType.value + [13, 10] else [];
            Section(item) == Ascii("Content-Disposition: ")
                             + (Ascii("form-data; name=") + [34] + item.name + [34] + file)
                             + [13, 10] + kind + [13, 10] + item.body
  {
    hide Ascii;
    var file := if item.filename.Some? then Ascii("; filename=") + ([34] + item.filename.value + [34]) else [];
    assert Disposition(item) == Ascii("form-data; name=") + [34] + item.name + [34] + file;
  }

  /** Sections are divided by a line break, two dashes and the boundary, and two more dashes
      close the form. */
  lemma FormText(items: seq<Item>, boundary: seq<byte>)
    requires items != []
    ensures Render(items, boundary) == [45, 45] + boundary + [13, 10] + Sections(items, boundary)
    ensures |items| == 1 ==>
              Sections(items, boundary) == Section(items[0]) + [13, 10, 45, 45] + boundary + [45, 45, 13, 10]
    ensures |items| > 1 ==>
              Sections(items, boundary)
              == Section(items[0]) + [13, 10, 45, 45] + boundary + [13, 10] + Sections(items[1..], boundary)
  {
    hide Section;
    if |items| > 1 {
      hide Sections;
      Divided(Section(items[0]), boundary, Sections(items[1..], boundary));
      MoreSections(items, boundary);
    }
  }

  lemma MoreSections(items: seq<Item>, boundary: seq<byte>)
    requires |items| > 1
    ensures Sections(items, boundary)
            == Section(items[0]) + (Delimiter(boundary) + (BREAK + Sections(items[1..], boundary)))
  {
    hide Section, Delimiter;
  }

  lemma Divided(section: seq<byte>, boundary: seq<byte>, more: seq<byte>)
    ensures section + (Delimiter(boundary) + (BREAK + more)) == section + [13, 10, 45, 45] + boundary + [13, 10] + more
  {
  }

  /** One field, byte by byte. */
  lemma FieldIsRead(name: seq<byte>, body: seq<byte>, boundary: seq<byte>)
    requires GoodBoundary(boundary) && name != [] && CR !in name && LF !in name && QUOTE !in name
    requires Search(Lowered(name), Ascii("filename=")).None?
    requires Search([13, 10] + body, [13, 10, 45, 45] + boundary).None?
    ensures var form := [45, 45] + boundary + [13, 10]
                        + (Ascii("Content-Disposition: ") + (Ascii("form-data; name=") + [34] + name + [34] + [])
                           + [13, 10] + [] + [13, 10] + body + [13, 10, 45, 45] + boundary + [45, 45, 13, 10]);
            Parse(form, Ascii("multipart/form-data; boundary=") + boundary)
            == Parts([Part(name, None, [], body, if |body| <= 16777216 then Base64.Encode(body) else [])])
  {
    hide Ascii, Search, Lowered, GoodBoundary, Parse, Render, Section, Sections;
    var item := Item(name, None, None, body);
    assert WellFormed(item, boundary);
    SectionText(item);
    FormText([item], boundary);
    FormReadsBack([item], boundary);
    assert PartsOf([item]) == [PartOf(item)];
  }
}
