/** Parsing the RFC 7578 rendering of a form gives back its parts. */
module MultipartRoundTrip {
  import opened Wrappers
  import opened Bits
  import opened AsciiText
  import opened Texts
  import opened Searching
  import opened Multipart
  import Base64

  // ---------- rendering ----------

  datatype Item = Item(name: seq<byte>, filename: Option<seq<byte>>, contentType: Option<seq<byte>>, body: seq<byte>)

  function Quoted(s: seq<byte>): seq<byte> {
    [QUOTE] + s + [QUOTE]
  }

  function Disposition(item: Item): seq<byte> {
    Ascii("form-data; name=") + Quoted(item.name)
    + if item.filename.Some? then Ascii("; filename=") + Quoted(item.filename.value) else []
  }

  function DispositionLine(item: Item): seq<byte> {
    Ascii("Content-Disposition: ") + Disposition(item)
  }

  function TypeLine(contentType: seq<byte>): seq<byte> {
    Ascii("Content-Type: ") + contentType
  }

  const BREAK: seq<byte> := [CR, LF]

  function TypeBlock(item: Item): seq<byte> {
    if item.contentType.Some? then TypeLine(item.contentType.value) + BREAK else []
  }

  function HeaderBlock(item: Item): seq<byte> {
    DispositionLine(item) + BREAK + TypeBlock(item)
  }

  function Section(item: Item): seq<byte> {
    HeaderBlock(item) + (BREAK + item.body)
  }

  function Sections(items: seq<Item>, boundary: seq<byte>): seq<byte>
    requires items != []
  {
    Section(items[0]) + (Delimiter(boundary)
      + if |items| == 1 then [DASH, DASH] + BREAK else BREAK + Sections(items[1..], boundary))
  }

  function Render(items: seq<Item>, boundary: seq<byte>): seq<byte>
    requires items != []
  {
    [DASH, DASH] + boundary + BREAK + Sections(items, boundary)
  }

  // ---------- well-formed items ----------

  predicate Plain(s: seq<byte>) {
    CR !in s && LF !in s && QUOTE !in s
  }

  /** What the format can carry: no line breaks or quotes in the header values, and no
      delimiter in the body or right before it. */
  predicate WellFormed(item: Item, boundary: seq<byte>) {
    && item.name != [] && Plain(item.name)
    && (item.filename.Some? ==> Plain(item.filename.value))
    && (item.contentType.Some? ==>
          && CR !in item.contentType.value && LF !in item.contentType.value
          && item.contentType.value != [] && !IsBlank(item.contentType.value[0]))
    && Search(BREAK + item.body, Delimiter(boundary)).None?
  }

  predicate GoodBoundary(boundary: seq<byte>) {
    && boundary != [] && CR !in boundary && LF !in boundary && SEMICOLON !in boundary && QUOTE !in boundary
    && !IsBlank(boundary[0])
  }

  const FILENAME: seq<byte> := Ascii("filename=")

  /** What is taken for the file name when `filename=` stands in the name, followed there by t. */
  function Misread(t: seq<byte>, file: bool): seq<byte> {
    var v := SkipBlanks(t);
    var n := RunLength(v, ATTRIBUTE_STOPS);
    if v == [] then if file then Ascii("; filename=") else []
    else if n < |v| then v[..n] else v + [QUOTE]
  }

  /** The file name that comes out. */
  function FilenameRead(item: Item): Option<seq<byte>> {
    match Search(Lowered(item.name), FILENAME)
    case None => item.filename
    case Some(k) =>
      SearchMeans(Lowered(item.name), FILENAME);
      Some(Misread(item.name[k + |FILENAME|..], item.filename.Some?))
  }

  /** The part that comes out. */
  function PartOf(item: Item): Part {
    MakePart(Headers(item.name, FilenameRead(item), if item.contentType.Some? then item.contentType.value else []),
        item.body)
  }

  function PartsOf(items: seq<Item>): (parts: seq<Part>)
    ensures |parts| == |items| && forall i :: 0 <= i < |items| ==> parts[i] == PartOf(items[i])
  {
    seq(|items|, i requires 0 <= i < |items| => PartOf(items[i]))
  }

  // ---------- attributes ----------

  lemma LoweredConcat(a: seq<byte>, b: seq<byte>)
    ensures Lowered(a + b) == Lowered(a) + Lowered(b)
  {
  }

  lemma QuotedValue(s: seq<byte>, rest: seq<byte>)
    requires QUOTE !in s
    ensures AttributeValue(Quoted(s) + rest) == s
  {
    var v := Quoted(s) + rest;
    assert SkipBlanks(v) == v;
    assert v[1..] == s + ([QUOTE] + rest);
    RunStops(s, [QUOTE] + rest, {QUOTE});
    assert (s + ([QUOTE] + rest))[..|s|] == s;
  }

  lemma {:induction false} RunStops(s: seq<byte>, tail: seq<byte>, stops: set<byte>)
    requires (forall i :: 0 <= i < |s| ==> s[i] !in stops) && (tail == [] || tail[0] in stops)
    ensures RunLength(s + tail, stops) == |s|
  {
    if s == [] {
      assert s + tail == tail;
    } else {
      assert (s + tail)[1..] == s[1..] + tail;
      RunStops(s[1..], tail, stops);
    }
  }

  /** The first occurrence, when the needle comes right after a part where it cannot start. */
  lemma FoundAfter(u: seq<byte>, v: seq<byte>, needle: seq<byte>)
    requires needle <= v && forall p :: 0 <= p < |u| ==> !Occurs(u + v, needle, p)
    ensures Search(u + v, needle) == Some(|u|)
  {
    SearchSkips(u, v, needle);
  }

  lemma NameFound(item: Item)
    requires QUOTE !in item.name
    ensures Attribute(Disposition(item), Ascii("name")) == Some(item.name)
  {
    hide Quoted, AttributeValue, Search;
    var d := Disposition(item);
    var rest := if item.filename.Some? then Ascii("; filename=") + Quoted(item.filename.value) else [];
    var u, needle := Ascii("form-data; "), Ascii("name") + [EQUALS];
    NameWords();
    var tail := Quoted(item.name) + rest;
    assert d == u + (needle + tail);
    LoweredConcat(u, needle + tail);
    LoweredConcat(needle, tail);
    NeedsFirst(u, needle + Lowered(tail), needle);
    FoundAfter(u, needle + Lowered(tail), needle);
    assert d[|u| + 5..] == tail;
    QuotedValue(item.name, rest);
  }

  lemma NameWords()
    ensures Ascii("form-data; name=") == Ascii("form-data; ") + (Ascii("name") + [EQUALS])
    ensures Lowered(Ascii("form-data; ")) == Ascii("form-data; ")
            && Lowered(Ascii("name") + [EQUALS]) == Ascii("name") + [EQUALS]
    ensures (Ascii("name") + [EQUALS])[0] !in Ascii("form-data; ")
  {
  }

  lemma FileWords()
    ensures Ascii("filename") + [EQUALS] == FILENAME && Lowered(FILENAME) == FILENAME
    ensures Ascii("; filename=") == Ascii("; ") + FILENAME
    ensures QUOTE !in FILENAME && |FILENAME| == 9
    ensures Lowered([QUOTE]) == [QUOTE] && Lowered([QUOTE] + Ascii("; ")) == [QUOTE] + Ascii("; ")
    ensures FILENAME[0] !in [QUOTE] + Ascii("; ") && FILENAME[0] !in [QUOTE]
  {
  }

  lemma OpeningWords(v: seq<byte>)
    ensures var u := Ascii("form-data; name=") + [QUOTE];
            Lowered(u) == u && forall p :: 0 <= p < |u| ==> !Occurs(u + v, FILENAME, p)
  {
    var u := Ascii("form-data; name=") + [QUOTE];
    assert FILENAME[0] == 102 && FILENAME[1] == 105;
    forall p | 0 <= p < |u| ensures !Occurs(u + v, FILENAME, p) {
      assert u[p] != 102 || u[p + 1] != 105;
      assert p + 1 < |u| ==> (u + v)[p + 1] == u[p + 1];
      if Occurs(u + v, FILENAME, p) {
        OccursBytes(u + v, FILENAME, p);
      }
    }
  }

  lemma OccursBytes(s: seq<byte>, needle: seq<byte>, p: nat)
    requires Occurs(s, needle, p) && |needle| > 1
    ensures s[p] == needle[0] && s[p + 1] == needle[1]
  {
    assert s[p..p + |needle|][0] == s[p] && s[p..p + |needle|][1] == s[p + 1];
  }

  /** Searching for `filename=` passes over the whole name parameter. */
  lemma NamePassed(name: seq<byte>, tail: seq<byte>)
    requires Search(Lowered(name), FILENAME).None?
    ensures var front := Ascii("form-data; name=") + Quoted(name);
            Search(Lowered(front + tail), FILENAME) == Shifted(Search(Lowered([QUOTE] + tail), FILENAME), |front| - 1)
  {
    hide Search, Occurs, Ascii, Lowered;
    FileWords();
    var u, q := Ascii("form-data; name=") + [QUOTE], Lowered([QUOTE] + tail);
    assert Ascii("form-data; name=") + Quoted(name) + tail == u + (name + ([QUOTE] + tail));
    LoweredConcat(u, name + ([QUOTE] + tail));
    LoweredConcat(name, [QUOTE] + tail);
    LoweredConcat([QUOTE], tail);
    OpeningWords(Lowered(name) + q);
    SearchSkips(u, Lowered(name) + q, FILENAME);
    CannotCross(Lowered(name), q, FILENAME);
    SearchSkips(Lowered(name), q, FILENAME);
  }

  lemma OwnFileFound(item: Item)
    requires Plain(item.name) && Search(Lowered(item.name), FILENAME).None?
    requires item.filename.Some? ==> Plain(item.filename.value)
    ensures Attribute(Disposition(item), Ascii("filename")) == item.filename
  {
    hide Search, Occurs, Ascii, Lowered, Quoted, AttributeValue;
    FileWords();
    var front := Ascii("form-data; name=") + Quoted(item.name);
    var d := Disposition(item);
    if item.filename.None? {
      assert d == front + [];
      NamePassed(item.name, []);
      assert [QUOTE] + [] == [QUOTE];
      ShortSearch();
    } else {
      var value := Quoted(item.filename.value);
      var tail := Ascii("; filename=") + value;
      assert d == front + tail;
      NamePassed(item.name, tail);
      var u := [QUOTE] + Ascii("; ");
      assert [QUOTE] + tail == u + (FILENAME + value);
      LoweredConcat(u, FILENAME + value);
      LoweredConcat(FILENAME, value);
      NeedsFirst(u, FILENAME + Lowered(value), FILENAME);
      FoundAfter(u, FILENAME + Lowered(value), FILENAME);
      assert |u| + 9 == |[QUOTE] + Ascii("; filename=")|;
      assert d[|front| - 1 + |u| + 9..] == value;
      QuotedValue(item.filename.value, []);
      assert value + [] == value;
    }
  }

  lemma {:induction false} BlanksFirst(t: seq<byte>, x: seq<byte>)
    ensures SkipBlanks(t + x) == if SkipBlanks(t) == [] then SkipBlanks(x) else SkipBlanks(t) + x
  {
    if t == [] {
      assert t + x == x;
    } else {
      assert (t + x)[1..] == t[1..] + x;
      if IsBlank(t[0]) {
        BlanksFirst(t[1..], x);
      }
    }
  }

  lemma {:induction false} RunGoesOn(v: seq<byte>, x: seq<byte>, stops: set<byte>)
    ensures RunLength(v + x, stops)
            == if RunLength(v, stops) < |v| then RunLength(v, stops) else |v| + RunLength(x, stops)
  {
    if v == [] {
      assert v + x == x;
    } else {
      assert (v + x)[1..] == v[1..] + x;
      RunGoesOn(v[1..], x, stops);
    }
  }

  lemma BlankBytes(t: seq<byte>)
    requires QUOTE !in t
    ensures QUOTE !in SkipBlanks(t)
  {
    BlanksSkipped(t);
  }

  lemma MisreadValue(t: seq<byte>, tail: seq<byte>)
    requires QUOTE !in t && (tail == [] || tail[0] == SEMICOLON)
    ensures AttributeValue(t + ([QUOTE] + tail))
            == if SkipBlanks(t) == [] then tail[..RunLength(tail, {QUOTE})] else Misread(t, true)
  {
    hide Ascii;
    var v, x := SkipBlanks(t), [QUOTE] + tail;
    BlanksFirst(t, x);
    BlankBytes(t);
    assert x[1..] == tail && SkipBlanks(x) == x;
    if v != [] {
      RunGoesOn(v, x, ATTRIBUTE_STOPS);
      RunGoesOn([QUOTE], tail, ATTRIBUTE_STOPS);
      assert RunLength([QUOTE], ATTRIBUTE_STOPS) == 1;
      var n := RunLength(v, ATTRIBUTE_STOPS);
      assert n < |v| ==> (v + x)[..n] == v[..n];
      assert (v + x)[..|v| + 1] == v + [QUOTE];
    }
  }

  /** The first `filename=` of the header is that in the name. */
  lemma NameMisread(item: Item, tail: seq<byte>)
    requires Plain(item.name) && Search(Lowered(item.name), FILENAME).Some?
    requires Disposition(item) == Ascii("form-data; name=") + Quoted(item.name) + tail
    requires tail == [] || tail[0] == SEMICOLON
    ensures var k := Search(Lowered(item.name), FILENAME).value;
            && k + 9 <= |item.name|
            && Attribute(Disposition(item), Ascii("filename"))
                == Some(AttributeValue(item.name[k + 9..] + ([QUOTE] + tail)))
  {
    hide Search, Occurs, Ascii, Lowered, AttributeValue, Disposition;
    FileWords();
    var name, u, q := item.name, Ascii("form-data; name=") + [QUOTE], [QUOTE] + tail;
    assert Disposition(item) == u + (name + q);
    LoweredConcat(u, name + q);
    LoweredConcat(name, q);
    LoweredConcat([QUOTE], tail);
    var k := Search(Lowered(name), FILENAME).value;
    OpeningWords(Lowered(name) + Lowered(q));
    SearchSkips(u, Lowered(name) + Lowered(q), FILENAME);
    FirstInFront(Lowered(name), Lowered(q), k);
    SearchMeans(Lowered(name), FILENAME);
    InsideName(Lowered(name), k);
    LoweredLength(name);
    assert Disposition(item)[|u| + k + 9..] == name[k + 9..] + q;
  }

  lemma InsideName(s: seq<byte>, k: nat)
    requires Occurs(s, FILENAME, k) && |FILENAME| == 9
    ensures k + 9 <= |s|
  {
  }

  lemma LoweredLength(s: seq<byte>)
    ensures |Lowered(s)| == |s|
  {
  }

  lemma FirstInFront(name: seq<byte>, q: seq<byte>, k: nat)
    requires Search(name, FILENAME) == Some(k) && q != [] && q[0] !in FILENAME && |FILENAME| == 9
    ensures Search(name + q, FILENAME) == Some(k)
  {
    hide Search, Occurs;
    SearchMeans(name, FILENAME);
    OccursInPrefix(name, q, FILENAME, k);
    InsideName(name, k);
    forall p | 0 <= p < k ensures !Occurs(name + q, FILENAME, p) {
      if Occurs(name + q, FILENAME, p) {
        CrossCase(name, q, FILENAME, p);
      }
    }
    SearchMeans(name + q, FILENAME);
  }

  /** The file name the header gives is the item's own, unless the name contains `filename=`. */
  lemma FileFound(item: Item)
    requires Plain(item.name) && (item.filename.Some? ==> Plain(item.filename.value))
    ensures Attribute(Disposition(item), Ascii("filename")) == FilenameRead(item)
  {
    hide Search, Occurs, Lowered, AttributeValue, Attribute, Ascii, Misread;
    FileWords();
    if Search(Lowered(item.name), FILENAME).None? {
      OwnFileFound(item);
    } else {
      var k := Search(Lowered(item.name), FILENAME).value;
      var tail := if item.filename.Some? then Ascii("; filename=") + Quoted(item.filename.value) else [];
      FileTail(item);
      NameMisread(item, tail);
      MisreadValue(item.name[k + 9..], tail);
      MisreadCases(item.name[k + 9..], item.filename.Some?);
    }
  }

  lemma MisreadCases(t: seq<byte>, file: bool)
    ensures SkipBlanks(t) == [] ==> Misread(t, file) == if file then Ascii("; filename=") else []
    ensures SkipBlanks(t) != [] ==> Misread(t, file) == Misread(t, true)
  {
  }

  lemma FileTail(item: Item)
    ensures var tail := if item.filename.Some? then Ascii("; filename=") + Quoted(item.filename.value) else [];
            && Disposition(item) == Ascii("form-data; name=") + Quoted(item.name) + tail
            && (tail == [] || tail[0] == SEMICOLON)
            && tail[..RunLength(tail, {QUOTE})] == if item.filename.Some? then Ascii("; filename=") else []
  {
    if item.filename.Some? {
      var key, value := Ascii("; filename="), Quoted(item.filename.value);
      assert key[0] == SEMICOLON && QUOTE !in key;
      RunStops(key, value, {QUOTE});
      assert (key + value)[..|key|] == key;
    }
  }

  lemma ShortSearch()
    ensures Search([QUOTE], FILENAME).None?
  {
  }

  // ---------- header lines ----------

  lemma HeaderLineParsed(key: seq<byte>, value: seq<byte>)
    requires key != [] && COLON !in key && (value == [] || !IsBlank(value[0]))
    ensures ParseHeaderLine(key + [COLON, 32] + value) == Some(HeaderLine(Lowered(key), value))
  {
    var line := key + [COLON, 32] + value;
    var after := [COLON, 32] + value;
    assert line == key + after && after[1..] == [32] + value;
    FindAfter(key, COLON, after);
    assert line[..|key|] == key && line[|key|..] == after;
    assert line[|key| + 1..] == line[|key|..][1..];
    assert ([32] + value)[1..] == value;
    assert SkipBlanks([32] + value) == SkipBlanks(value) == value;
  }

  lemma KeyWords()
    ensures Ascii("Content-Disposition: ") == Ascii("Content-Disposition") + [COLON, 32]
    ensures Ascii("Content-Type: ") == Ascii("Content-Type") + [COLON, 32]
    ensures COLON !in Ascii("Content-Disposition") && COLON !in Ascii("Content-Type")
    ensures Lowered(Ascii("Content-Disposition")) == Ascii("content-disposition")
    ensures Lowered(Ascii("Content-Type")) == Ascii("content-type")
    ensures Ascii("content-type") != Ascii("content-disposition")
  {
  }

  lemma DispositionStarts(item: Item)
    ensures Disposition(item) != [] && !IsBlank(Disposition(item)[0])
  {
    assert Disposition(item)[0] == Ascii("form-data; name=")[0];
  }

  lemma DispositionApplied(h: Headers, item: Item, boundary: seq<byte>)
    requires WellFormed(item, boundary) && h.filename == None
    ensures ApplyLine(h, DispositionLine(item)) == Headers(item.name, FilenameRead(item), h.contentType)
  {
    hide Search, Ascii, Disposition, Attribute, ParseHeaderLine, Lowered;
    KeyWords();
    DispositionStarts(item);
    assert DispositionLine(item) == Ascii("Content-Disposition") + [COLON, 32] + Disposition(item);
    HeaderLineParsed(Ascii("Content-Disposition"), Disposition(item));
    NameFound(item);
    FileFound(item);
  }

  lemma TypeApplied(h: Headers, contentType: seq<byte>)
    requires contentType == [] || !IsBlank(contentType[0])
    ensures ApplyLine(h, TypeLine(contentType)) == h.(contentType := contentType)
  {
    hide Ascii, ParseHeaderLine, Lowered;
    KeyWords();
    assert TypeLine(contentType) == Ascii("Content-Type") + [COLON, 32] + contentType;
    HeaderLineParsed(Ascii("Content-Type"), contentType);
  }

  lemma LineApplied(h: Headers, line: seq<byte>, rest: seq<byte>)
    requires line != [] && LF !in line && CR !in line
    ensures ApplyLines(h, line + BREAK + rest) == ApplyLines(ApplyLine(h, line), rest)
  {
    hide ApplyLine;
    var block := line + BREAK + rest;
    assert block == (line + [CR]) + ([LF] + rest);
    FindAfter(line + [CR], LF, [LF] + rest);
    assert block[|line| + 2..] == rest && block[..|line|] == line;
  }

  lemma LineSkipped(line: seq<byte>, rest: seq<byte>)
    requires line != [] && LF !in line && CR !in line
    ensures SplitHeaders(line + BREAK + rest)
            == match SplitHeaders(rest)
               case None => None
               case Some(Split(h, b)) => Some(Split(h + |line| + 2, b + |line| + 2))
  {
    var part := line + BREAK + rest;
    assert part == (line + [CR]) + ([LF] + rest);
    FindAfter(line + [CR], LF, [LF] + rest);
    assert part[|line| + 2..] == rest;
    assert part[0] == line[0];
  }

  lemma BlankLine(body: seq<byte>)
    ensures SplitHeaders(BREAK + body) == Some(Split(0, 2))
  {
    var part := BREAK + body;
    assert part == [CR] + ([LF] + body);
    FindAfter([CR], LF, [LF] + body);
  }

  lemma PlainLines(item: Item, boundary: seq<byte>)
    requires WellFormed(item, boundary)
    ensures DispositionLine(item) != [] && CR !in DispositionLine(item) && LF !in DispositionLine(item)
    ensures item.contentType.Some? ==>
              TypeLine(item.contentType.value) != [] && CR !in TypeLine(item.contentType.value)
                  && LF !in TypeLine(item.contentType.value)
  {
    hide Search;
    PlainWords();
    hide Ascii;
  }

  lemma PlainWords()
    ensures Plain(Ascii("Content-Disposition: ")) && Plain(Ascii("Content-Type: "))
    ensures Plain(Ascii("form-data; name=")) && Plain(Ascii("; filename="))
  {
    hide Plain;
    PlainKeys();
    PlainAttributes();
  }

  lemma PlainKeys()
    ensures Plain(Ascii("Content-Disposition: ")) && Plain(Ascii("Content-Type: "))
  {
  }

  lemma PlainAttributes()
    ensures Plain(Ascii("form-data; name=")) && Plain(Ascii("; filename="))
  {
  }

  lemma SectionSplit(item: Item, boundary: seq<byte>)
    requires WellFormed(item, boundary)
    ensures SplitHeaders(Section(item)) == Some(Split(|HeaderBlock(item)|, |HeaderBlock(item)| + 2))
  {
    hide Search, SplitHeaders, DispositionLine, TypeLine, Plain, WellFormed;
    PlainLines(item, boundary);
    var line, tail := DispositionLine(item), TypeBlock(item) + (BREAK + item.body);
    assert Section(item) == line + BREAK + tail;
    LineSkipped(line, tail);
    BlankLine(item.body);
    if item.contentType.Some? {
      var typeLine := TypeLine(item.contentType.value);
      assert tail == typeLine + BREAK + (BREAK + item.body);
      LineSkipped(typeLine, BREAK + item.body);
    } else {
      assert tail == BREAK + item.body;
    }
  }

  lemma SectionHeaders(item: Item, boundary: seq<byte>)
    requires WellFormed(item, boundary)
    ensures ApplyLines(Headers([], None, []), HeaderBlock(item))
            == Headers(item.name, FilenameRead(item), if item.contentType.Some? then item.contentType.value else [])
  {
    hide Search, ApplyLines, ApplyLine, DispositionLine, TypeLine, Plain;
    PlainLines(item, boundary);
    var none := Headers([], None, []);
    LineApplied(none, DispositionLine(item), TypeBlock(item));
    DispositionApplied(none, item, boundary);
    var named := Headers(item.name, FilenameRead(item), []);
    if item.contentType.Some? {
      var typeLine := TypeLine(item.contentType.value);
      assert TypeBlock(item) == typeLine + BREAK + [];
      LineApplied(named, typeLine, []);
      TypeApplied(named, item.contentType.value);
    }
    NoLinesApplied(named.(contentType := if item.contentType.Some? then item.contentType.value else []));
  }

  /** One section is one part. */
  lemma SectionParsed(item: Item, boundary: seq<byte>)
    requires WellFormed(item, boundary)
    ensures ParsePart(Section(item)) == Taken(PartOf(item))
  {
    hide Search, SplitHeaders, ApplyLines, HeaderBlock, MakePart, Plain;
    SectionSplit(item, boundary);
    SectionHeaders(item, boundary);
    var slice, n := Section(item), |HeaderBlock(item)|;
    assert slice[..n] == HeaderBlock(item) && slice[n + 2..] == item.body;
  }

  lemma NoLinesApplied(h: Headers)
    ensures ApplyLines(h, []) == h
  {
  }

  // ---------- finding the delimiters ----------

  lemma OccursThree(s: seq<byte>, boundary: seq<byte>, p: nat)
    requires Occurs(s, Delimiter(boundary), p)
    ensures s[p] == CR && s[p + 1] == LF && s[p + 2] == DASH
  {
  }

  /** No delimiter starts in a line whose follower does not begin with a dash. */
  lemma NoneInLine(line: seq<byte>, v: seq<byte>, boundary: seq<byte>)
    requires CR !in line && v != [] && v[0] != DASH
    ensures forall p :: 0 <= p < |line + BREAK| ==> !Occurs(line + BREAK + v, Delimiter(boundary), p)
  {
    hide Occurs;
    var s := line + BREAK + v;
    forall p | 0 <= p < |line + BREAK| ensures !Occurs(s, Delimiter(boundary), p) {
      assert p < |line| ==> s[p] == line[p];
      if Occurs(s, Delimiter(boundary), p) {
        OccursThree(s, boundary, p);
      }
    }
  }

  lemma StartsWithC(item: Item, tail: seq<byte>)
    ensures Section(item) + tail != [] && (Section(item) + tail)[0] == 67
  {
    assert (Section(item) + tail)[0] == Ascii("Content-Disposition: ")[0];
  }

  lemma TailBlock(item: Item, rest: seq<byte>)
    ensures var v := TypeBlock(item) + (BREAK + rest); v != [] && v[0] != DASH
  {
  }

  /** The first delimiter in a section is the one behind it. */
  lemma SectionEnds(item: Item, boundary: seq<byte>, tail: seq<byte>)
    requires WellFormed(item, boundary) && CR !in boundary
    ensures Search(Section(item) + (Delimiter(boundary) + tail), Delimiter(boundary)) == Some(|Section(item)|)
  {
    hide Search, Occurs, DispositionLine, TypeLine, Plain;
    var d := Delimiter(boundary);
    var line, follow := DispositionLine(item), item.body + (d + tail);
    var rest := TypeBlock(item) + (BREAK + follow);
    PlainLines(item, boundary);
    TailBlock(item, follow);
    assert Section(item) + (d + tail) == line + BREAK + rest;
    NoneInLine(line, rest, boundary);
    SearchSkips(line + BREAK, rest, d);
    if item.contentType.Some? {
      var typeLine := TypeLine(item.contentType.value);
      assert rest == typeLine + BREAK + (BREAK + follow);
      NoneInLine(typeLine, BREAK + follow, boundary);
      SearchSkips(typeLine + BREAK, BREAK + follow, d);
    } else {
      assert rest == BREAK + follow;
    }
    BodyEnds(item.body, boundary, tail);
  }

  lemma BodyEnds(body: seq<byte>, boundary: seq<byte>, tail: seq<byte>)
    requires Search(BREAK + body, Delimiter(boundary)).None? && CR !in boundary
    ensures Search(BREAK + (body + (Delimiter(boundary) + tail)), Delimiter(boundary)) == Some(2 + |body|)
  {
    hide Search, Occurs;
    var d := Delimiter(boundary);
    assert BREAK + (body + (d + tail)) == (BREAK + body) + (d + tail);
    assert d[1..] == [LF, DASH, DASH] + boundary;
    CannotCross(BREAK + body, d + tail, d);
    FoundAfter(BREAK + body, d + tail, d);
  }

  // ---------- the round trip ----------

  function Capped(parts: seq<Part>): seq<Part> {
    if |parts| <= MAX_PARTS then parts else parts[..MAX_PARTS]
  }

  /** One turn of the loop, when the slice up to the next delimiter is a part. */
  lemma PartTurn(body: seq<byte>, start: nat, from: nat, next: nat, d: seq<byte>, parts: seq<Part>, part: Part)
    requires start < next <= |body| && from <= |body| && d != [] && Found(body, from, d) == Some(next)
    requires ParsePart(body[start..next]) == Taken(part) && next + |d| <= |body|
    ensures var after := next + |d|;
            ParseParts(body, start, from, d, parts)
            == if IsLast(body, after) || |parts| + 1 >= MAX_PARTS then Some(parts + [part])
               else ParseParts(body, SkipBreak(body, after), SkipBreak(body, after), d, parts + [part])
  {
    hide Found, ParsePart;
  }

  /** The loop reads one section and goes on behind its delimiter. */
  lemma SectionTurn(before: seq<byte>, item: Item, boundary: seq<byte>, tail: seq<byte>, from: nat, parts: seq<Part>)
    requires WellFormed(item, boundary) && CR !in boundary && from <= |before|
    requires var body := before + (Section(item) + (Delimiter(boundary) + tail));
             Found(body, from, Delimiter(boundary)) == Found(body, |before|, Delimiter(boundary))
    ensures var body := before + (Section(item) + (Delimiter(boundary) + tail));
            var after := |before| + |Section(item)| + |Delimiter(boundary)|;
            && after <= |body| && body[after..] == tail
            && ParseParts(body, |before|, from, Delimiter(boundary), parts)
               == if IsLast(body, after) || |parts| + 1 >= MAX_PARTS then Some(parts + [PartOf(item)])
                  else
                    var next := SkipBreak(body, after);
                    ParseParts(body, next, next, Delimiter(boundary), parts + [PartOf(item)])
  {
    hide Search, Found, Occurs, Section, ParsePart, PartOf, WellFormed, ParseParts, IsLast, SkipBreak, Delimiter;
    var d := Delimiter(boundary);
    var body, next := before + (Section(item) + (d + tail)), |before| + |Section(item)|;
    NextFound(before, item, boundary, tail);
    assert body[|before|..next] == Section(item);
    SectionParsed(item, boundary);
    SectionNotEmpty(item);
    assert body[next + |d|..] == tail;
    DelimiterNotEmpty(boundary);
    PartTurn(body, |before|, from, next, d, parts, PartOf(item));
  }

  lemma DelimiterNotEmpty(boundary: seq<byte>)
    ensures Delimiter(boundary) != []
  {
  }

  lemma AfterLast(body: seq<byte>, after: nat)
    requires after <= |body| && body[after..] == [DASH, DASH] + BREAK
    ensures IsLast(body, after)
  {
    assert body[after] == body[after..][0] && body[after + 1] == body[after..][1];
  }

  lemma AfterBreak(body: seq<byte>, after: nat, rest: seq<byte>)
    requires after <= |body| && body[after..] == BREAK + rest
    ensures !IsLast(body, after) && SkipBreak(body, after) == after + 2
  {
    assert body[after] == body[after..][0] && body[after + 1] == body[after..][1];
  }

  /** What follows the delimiter behind the first section. */
  function Following(items: seq<Item>, boundary: seq<byte>): seq<byte>
    requires items != []
  {
    if |items| == 1 then [DASH, DASH] + BREAK else BREAK + Sections(items[1..], boundary)
  }

  lemma SectionsUnfold(before: seq<byte>, items: seq<Item>, boundary: seq<byte>)
    requires items != []
    ensures before + Sections(items, boundary)
            == before + (Section(items[0]) + (Delimiter(boundary) + Following(items, boundary)))
    ensures |items| > 1 ==>
              before + Sections(items, boundary)
              == before + Section(items[0]) + Delimiter(boundary) + BREAK + Sections(items[1..], boundary)
  {
    hide Section, Delimiter;
  }

  lemma PartsOfCons(parts: seq<Part>, items: seq<Item>)
    requires items != []
    ensures parts + PartsOf(items) == parts + [PartOf(items[0])] + PartsOf(items[1..])
  {
    hide PartOf;
    assert PartsOf(items) == [PartOf(items[0])] + PartsOf(items[1..]);
  }

  lemma CapReached(parts: seq<Part>, more: seq<Part>)
    requires |parts| == MAX_PARTS
    ensures Capped(parts + more) == parts
  {
  }

  lemma {:induction false} SectionsParse(before: seq<byte>, items: seq<Item>, boundary: seq<byte>, from: nat,
                                         parts: seq<Part>)
    requires items != [] && CR !in boundary && |parts| < MAX_PARTS && from <= |before|
    requires forall i :: 0 <= i < |items| ==> WellFormed(items[i], boundary)
    requires var body := before + Sections(items, boundary);
             Found(body, from, Delimiter(boundary)) == Found(body, |before|, Delimiter(boundary))
    ensures ParseParts(before + Sections(items, boundary), |before|, from, Delimiter(boundary), parts)
            == Some(Capped(parts + PartsOf(items)))
    decreases |items|
  {
    hide Search, Found, Occurs, Section, Sections, PartOf, PartsOf, WellFormed, ParseParts, IsLast, SkipBreak,
         Delimiter;
    var d, item := Delimiter(boundary), items[0];
    var body, after := before + Sections(items, boundary), |before| + |Section(item)| + |d|;
    SectionsUnfold(before, items, boundary);
    SectionTurn(before, item, boundary, Following(items, boundary), from, parts);
    PartsOfCons(parts, items);
    var parts' := parts + [PartOf(item)];
    if |items| == 1 {
      AfterLast(body, after);
      assert |PartsOf(items[1..])| == 0 && parts' + PartsOf(items[1..]) == parts';
    } else {
      AfterBreak(body, after, Sections(items[1..], boundary));
      if |parts'| < MAX_PARTS {
        var before' := before + Section(item) + d + BREAK;
        SectionsParse(before', items[1..], boundary, |before'|, parts');
      } else {
        CapReached(parts', PartsOf(items[1..]));
      }
    }
  }

  lemma SectionNotEmpty(item: Item)
    ensures Section(item) != []
  {
  }

  lemma NextFound(before: seq<byte>, item: Item, boundary: seq<byte>, tail: seq<byte>)
    requires WellFormed(item, boundary) && CR !in boundary
    ensures Found(before + (Section(item) + (Delimiter(boundary) + tail)), |before|, Delimiter(boundary))
            == Some(|before| + |Section(item)|)
  {
    hide Search, Section, WellFormed;
    var body := before + (Section(item) + (Delimiter(boundary) + tail));
    assert body[|before|..] == Section(item) + (Delimiter(boundary) + tail);
    SectionEnds(item, boundary, tail);
  }

  lemma ParseOpens(body: seq<byte>, contentType: seq<byte>, boundary: seq<byte>)
    requires Boundary(contentType) == Some(boundary) && body != [] && boundary != []
    requires Found(body, 0, [DASH, DASH] + boundary) == Some(0)
    ensures 2 + |boundary| <= |body|
    ensures var r := ParseParts(body, SkipBreak(body, 2 + |boundary|), 0, Delimiter(boundary), []);
            Parse(body, contentType) == if r.None? then Overrun else Parts(r.value)
  {
  }

  /** For every boundary the header can carry and every list of well-formed items, parsing
      the rendered form gives their names, types and exact bodies, in order, with the file
      names that FilenameRead tells; of more than 32 items, the first 32. */
  lemma FormReadsBack(items: seq<Item>, boundary: seq<byte>)
    requires items != [] && GoodBoundary(boundary)
    requires forall i :: 0 <= i < |items| ==> WellFormed(items[i], boundary)
    ensures Parse(Render(items, boundary), Ascii("multipart/form-data; boundary=") + boundary)
            == Parts(Capped(PartsOf(items)))
  {
    hide Search, Found, Occurs, WellFormed, ParseParts, Sections, Boundary, Ascii, Parse, Delimiter, SkipBreak, PartsOf,
         Capped;
    var opening := [DASH, DASH] + boundary;
    var before := opening + BREAK;
    var body := Render(items, boundary);
    BoundaryFoundIff(boundary);
    OpeningFound(opening, BREAK + Sections(items, boundary));
    assert body == opening + (BREAK + Sections(items, boundary));
    ParseOpens(body, Ascii("multipart/form-data; boundary=") + boundary, boundary);
    assert body[|opening|..] == BREAK + Sections(items, boundary);
    AfterBreak(body, |opening|, Sections(items, boundary));
    FirstSection(items, boundary);
    assert body == before + Sections(items, boundary);
    SectionsParse(before, items, boundary, 0, []);
    assert [] + PartsOf(items) == PartsOf(items);
  }

  lemma OpeningFound(opening: seq<byte>, rest: seq<byte>)
    requires opening != []
    ensures Found(opening + rest, 0, opening) == Some(0)
  {
  }

  /** No delimiter before the first section. */
  lemma FirstSection(items: seq<Item>, boundary: seq<byte>)
    requires items != [] && CR !in boundary
    ensures var before := [DASH, DASH] + boundary + BREAK;
            var body := before + Sections(items, boundary);
            Found(body, 0, Delimiter(boundary)) == Found(body, |before|, Delimiter(boundary))
  {
    hide Search, Occurs, Section;
    var opening, v := [DASH, DASH] + boundary, Sections(items, boundary);
    var tail := Delimiter(boundary) + if |items|
        == 1 then [DASH, DASH] + BREAK else BREAK + Sections(items[1..], boundary);
    StartsWithC(items[0], tail);
    NoneInLine(opening, v, boundary);
    SearchSkips(opening + BREAK, v, Delimiter(boundary));
    var body := opening + BREAK + v;
    assert body[0..] == body && body[|opening + BREAK|..] == v;
  }

  lemma {:induction false} NoBoundaryIn(u: seq<byte>, v: seq<byte>)
    requires 98 !in u && 66 !in u
    ensures Boundary(u + v) == Boundary(v)
  {
    if u == [] {
      assert u + v == v;
    } else {
      var s := u + v;
      assert s[1..] == u[1..] + v;
      NoBoundaryIn(u[1..], v);
      if |s| >= 8 {
        assert Lowered(s[..8])[0] == Lower(u[0]) && Ascii("boundary")[0] == 98;
      } else {
        assert |v| < 8;
      }
    }
  }

  lemma BoundaryWords()
    ensures Ascii("multipart/form-data; boundary=") == Ascii("multipart/form-data; ") + (Ascii("boundary") + [EQUALS])
    ensures 98 !in Ascii("multipart/form-data; ") && 66 !in Ascii("multipart/form-data; ")
    ensures Lowered(Ascii("boundary")) == Ascii("boundary")
  {
  }

  lemma {:induction false} BlanksSkipped(s: seq<byte>)
    ensures |SkipBlanks(s)| <= |s| && SkipBlanks(s) == s[|s| - |SkipBlanks(s)|..]
    ensures SkipBlanks(s) == s <==> s == [] || !IsBlank(s[0])
  {
    if s != [] && IsBlank(s[0]) {
      BlanksSkipped(s[1..]);
    }
  }

  /** The content type names a boundary exactly when it does not start with a blank: leading
      blanks are dropped. */
  lemma BoundaryFoundIff(boundary: seq<byte>)
    requires boundary != [] && CR !in boundary && LF !in boundary && SEMICOLON !in boundary && QUOTE !in boundary
    ensures Boundary(Ascii("multipart/form-data; boundary=") + boundary) == Some(boundary) <==> !IsBlank(boundary[0])
  {
    hide Ascii, Lowered;
    BoundaryWords();
    var s := Ascii("boundary") + ([EQUALS] + boundary);
    assert Ascii("multipart/form-data; boundary=") + boundary == Ascii("multipart/form-data; ") + s;
    NoBoundaryIn(Ascii("multipart/form-data; "), s);
    assert s[..8] == Ascii("boundary") && s[8..] == [EQUALS] + boundary;
    assert SkipBlanks([EQUALS] + boundary) == [EQUALS] + boundary && ([EQUALS] + boundary)[1..] == boundary;
    var value := SkipBlanks(boundary);
    BlanksSkipped(boundary);
    assert forall i :: 0 <= i < |value| ==> value[i] in boundary;
    RunStops(value, [], BOUNDARY_STOPS);
    assert value + [] == value && value[..|value|] == value;
    assert !Begins(value, QUOTE);
  }

  /** A field without a file is read as one exactly when its name contains `filename=`. */
  lemma NameReadsAsFileIff(item: Item)
    requires Plain(item.name) && item.filename.None?
    ensures Attribute(Disposition(item), Ascii("filename")).None? <==> Search(Lowered(item.name), FILENAME).None?
  {
    hide Search, Occurs, Ascii, Lowered, AttributeValue;
    FileWords();
    if Search(Lowered(item.name), FILENAME).None? {
      FileFound(item);
    } else {
      var u, v := Ascii("form-data; name=") + [QUOTE], [QUOTE];
      assert Disposition(item) == u + (item.name + v);
      LoweredConcat(u, item.name + v);
      LoweredConcat(item.name, v);
      SearchMeans(Lowered(item.name), FILENAME);
      var k := Search(Lowered(item.name), FILENAME).value;
      OccursInPrefix(Lowered(item.name), v, FILENAME, k);
      OccursShifted(Lowered(u), Lowered(item.name) + v, FILENAME, k);
      SearchMeans(Lowered(Disposition(item)), FILENAME);
    }
  }

  /** With a file or without, the file name reads back exactly when the name does not contain
      `filename=`, or when the file name happens to be what is misread there. */
  lemma FilenameReadsBackIff(item: Item)
    requires Plain(item.name) && (item.filename.Some? ==> Plain(item.filename.value))
    ensures var at := Search(Lowered(item.name), FILENAME);
            at.Some? ==> at.value + |FILENAME| <= |item.name|
    ensures var at := Search(Lowered(item.name), FILENAME);
            Attribute(Disposition(item), Ascii("filename")) == item.filename
            <==> at.None? || item.filename == Some(Misread(item.name[at.value + |FILENAME|..], true))
  {
    hide Search, Occurs, Lowered, AttributeValue, Attribute, Ascii, Misread, Disposition;
    FileFound(item);
    SearchMeans(Lowered(item.name), FILENAME);
    FileWords();
    LoweredLength(item.name);
    var at := Search(Lowered(item.name), FILENAME);
    if at.Some? {
      InsideName(Lowered(item.name), at.value);
    }
  }

  /** The part with the item's own file name. */
  function OwnPart(item: Item): Part {
    MakePart(Headers(item.name, item.filename, if item.contentType.Some? then item.contentType.value else []),
        item.body)
  }

  function OwnParts(items: seq<Item>): (parts: seq<Part>)
    ensures |parts| == |items| && forall i :: 0 <= i < |items| ==> parts[i] == OwnPart(items[i])
  {
    seq(|items|, i requires 0 <= i < |items| => OwnPart(items[i]))
  }

  /** A form reads back exactly if each of its first 32 file names does. */
  lemma FormIsOwnIff(items: seq<Item>, boundary: seq<byte>)
    requires items != [] && GoodBoundary(boundary)
    requires forall i :: 0 <= i < |items| ==> WellFormed(items[i], boundary)
    ensures Parse(Render(items, boundary), Ascii("multipart/form-data; boundary=") + boundary)
            == Parts(Capped(OwnParts(items)))
            <==> forall i :: 0 <= i < |items| && i < 32 ==> FilenameRead(items[i]) == items[i].filename
  {
    hide WellFormed, Parse, Render, Ascii, FilenameRead, GoodBoundary;
    FormReadsBack(items, boundary);
    var read, own := Capped(PartsOf(items)), Capped(OwnParts(items));
    forall i | 0 <= i < |items| && i < MAX_PARTS
      ensures read[i] == own[i] <==> FilenameRead(items[i]) == items[i].filename
    {
      assert PartOf(items[i]).filename == FilenameRead(items[i]) && OwnPart(items[i]).filename == items[i].filename;
    }
    assert read == own <==> forall i :: 0 <= i < |read| ==> read[i] == own[i];
  }

  lemma OccursInPrefix(u: seq<byte>, v: seq<byte>, needle: seq<byte>, p: nat)
    requires Occurs(u, needle, p)
    ensures Occurs(u + v, needle, p)
  {
    assert (u + v)[p..p + |needle|] == u[p..p + |needle|];
  }

  /** The stored base64 decodes to the body, within the limit for one part. */
  lemma EncodedBodyReadsBack(item: Item)
    requires |item.body| <= MAX_ENCODED
    ensures Base64.Decode(PartOf(item).encoded, 0, 0) == Some(item.body)
  {
    Base64.EncodeReadsBack(item.body);
  }
}
