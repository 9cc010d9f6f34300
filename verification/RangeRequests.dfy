/** What a Range header asks for: headers written from numbers, and the bytes they mean
    (RFC 7233 section 2.1; src/fastapi_mojo_rs/src/bridge/file_protocol.rs). */
module RangeRequests {
  import opened Wrappers
  import opened Bits
  import opened AsciiText
  import opened Decimals
  import opened Texts
  import opened ByteRanges

  // ---------- requests and how they are written ----------

  /** A slice with both ends, everything from a position on, or so many bytes at the end. */
  datatype Ask = Slice(first: nat, last: nat) | From(first: nat) | Last(n: nat)

  /** The byte is asked for, in a file of that size. */
  predicate Wanted(a: Ask, size: nat, x: int) {
    && 0 <= x < size
    && match a
       case Slice(first, last) => first <= x <= last
       case From(first) => first <= x
       case Last(n) => size - n <= x
  }

  /** The first byte lies behind the end of the file. */
  predicate Beyond(a: Ask, size: nat) {
    match a
    case Slice(first, _) => first >= size
    case From(first) => first >= size
    case Last(n) => n == 0 || size == 0
  }

  predicate Small(a: Ask) {
    match a
    case Slice(first, last) => first < I64_BOUND && last < I64_BOUND
    case From(first) => first < I64_BOUND
    case Last(n) => n < I64_BOUND
  }

  /** White space that may stand around the numbers. */
  datatype Blanks = Blanks(b0: seq<byte>, b1: seq<byte>, b2: seq<byte>, b3: seq<byte>)

  predicate Blank(s: seq<byte>) {
    forall i :: 0 <= i < |s| ==> IsSpace(s[i])
  }

  predicate AllBlank(b: Blanks) {
    Blank(b.b0) && Blank(b.b1) && Blank(b.b2) && Blank(b.b3)
  }

  function FirstText(a: Ask): seq<byte> {
    match a
    case Slice(first, _) => Decimal(first)
    case From(first) => Decimal(first)
    case Last(_) => []
  }

  function SecondText(a: Ask): seq<byte> {
    match a
    case Slice(_, last) => Decimal(last)
    case From(_) => []
    case Last(n) => Decimal(n)
  }

  function Written(a: Ask, b: Blanks): seq<byte> {
    b.b0 + FirstText(a) + b.b1 + [45] + b.b2 + SecondText(a) + b.b3
  }

  // ---------- reading one of them ----------

  lemma {:induction false} TrimStartBlank(blank: seq<byte>, s: seq<byte>)
    requires Blank(blank) && (s == [] || !IsSpace(s[0]))
    ensures TrimStart(blank + s) == s
    decreases |blank|
  {
    if blank == [] {
      assert blank + s == s;
    } else {
      assert (blank + s)[1..] == blank[1..] + s;
      TrimStartBlank(blank[1..], s);
    }
  }

  lemma {:induction false} TrimEndBlank(s: seq<byte>, blank: seq<byte>)
    requires Blank(blank) && (s == [] || !IsSpace(s[|s| - 1]))
    ensures TrimEnd(s + blank) == s
    decreases |blank|
  {
    if blank == [] {
      assert s + blank == s;
    } else {
      var front := blank[..|blank| - 1];
      assert (s + blank)[..|s + blank| - 1] == s + front;
      TrimEndBlank(s, front);
    }
  }

  lemma {:induction false} AllTrimmed(blank: seq<byte>)
    requires Blank(blank)
    ensures TrimStart(blank) == []
    decreases |blank|
  {
    if blank != [] {
      AllTrimmed(blank[1..]);
    }
  }

  lemma Trimmed(before: seq<byte>, s: seq<byte>, after: seq<byte>)
    requires Blank(before) && Blank(after)
    requires s != [] && !IsSpace(s[0]) && !IsSpace(s[|s| - 1])
    ensures Trim(before + s + after) == s
  {
    hide IsSpace;
    assert before + s + after == before + (s + after);
    TrimStartBlank(before, s + after);
    TrimEndBlank(s, after);
  }

  lemma {:induction false} FindNone(s: seq<byte>, b: byte)
    requires b !in s
    ensures Find(s, b) == |s|
    decreases |s|
  {
    if s != [] {
      FindNone(s[1..], b);
    }
  }

  lemma {:induction false} DigitsAre(n: nat)
    ensures AllDigits(Decimal(n))
    ensures forall i :: 0 <= i < |Decimal(n)| ==> !IsSpace(Decimal(n)[i]) && Decimal(n)[i] !in {43, 44, 45}
  {
  }

  lemma NumberParsed(n: nat)
    requires n < I64_BOUND
    ensures ParseI64(Decimal(n)) == Some(n)
  {
    hide Decimal, DecimalValue;
    DigitsAre(n);
    DecimalReadsBack(n);
  }

  /** The first number with the white space after it, and the second with that before it. */
  function Left(a: Ask, b: Blanks): seq<byte> {
    if FirstText(a) == [] then [] else FirstText(a) + b.b1
  }

  function Right(a: Ask, b: Blanks): seq<byte> {
    if SecondText(a) == [] then [] else b.b2 + SecondText(a)
  }

  lemma BlankConcat(a: seq<byte>, b: seq<byte>)
    requires Blank(a) && Blank(b)
    ensures Blank(a + b)
  {
  }

  lemma TextShape(s: seq<byte>, n: nat)
    requires s == Decimal(n)
    ensures s != [] && !IsSpace(s[0]) && !IsSpace(s[|s| - 1]) && 45 !in s
  {
    DigitsAre(n);
  }

  lemma OuterTrim(a: Ask, b: Blanks)
    requires AllBlank(b)
    ensures Trim(Written(a, b)) == Left(a, b) + [45] + Right(a, b)
  {
    hide IsSpace, Decimal, Blank, Trim;
    var core := Left(a, b) + [45] + Right(a, b);
    var before := if FirstText(a) == [] then b.b0 + b.b1 else b.b0;
    var after := if SecondText(a) == [] then b.b2 + b.b3 else b.b3;
    BlankConcat(b.b0, b.b1);
    BlankConcat(b.b2, b.b3);
    DashIsNoSpace();
    match a {
      case Slice(first, last) =>
        TextShape(Decimal(first), first);
        TextShape(Decimal(last), last);
      case From(first) => TextShape(Decimal(first), first);
      case Last(n) => TextShape(Decimal(n), n);
    }
    WrittenShape(a, b);
    assert core[0] == if FirstText(a) == [] then 45 else FirstText(a)[0];
    assert core[|core| - 1] == if SecondText(a) == [] then 45 else SecondText(a)[|SecondText(a)| - 1];
    Trimmed(before, core, after);
  }

  lemma WrittenShape(a: Ask, b: Blanks)
    ensures Written(a, b)
            == (if FirstText(a) == [] then b.b0 + b.b1 else b.b0) + (Left(a, b) + [45] + Right(a, b))
               + if SecondText(a) == [] then b.b2 + b.b3 else b.b3
  {
    hide Decimal;
  }

  lemma DashIsNoSpace()
    ensures !IsSpace(45)
  {
  }

  lemma NoDash(a: Ask, b: Blanks)
    requires AllBlank(b)
    ensures 45 !in Left(a, b)
  {
    match a {
      case Slice(first, _) => DigitsAre(first);
      case From(first) => DigitsAre(first);
      case Last(_) =>
    }
  }

  lemma InnerTrims(a: Ask, b: Blanks)
    requires AllBlank(b)
    ensures Trim(Left(a, b)) == FirstText(a) && Trim(Right(a, b)) == SecondText(a)
  {
    hide IsSpace, Decimal, Blank, Trim;
    assert Blank([]) by { NothingIsBlank(); }
    assert Trim([]) == [] by { NothingIsBlank(); }
    if FirstText(a) != [] {
      match a {
        case Slice(first, _) => TextShape(Decimal(first), first);
        case From(first) => TextShape(Decimal(first), first);
      }
      assert Left(a, b) == [] + FirstText(a) + b.b1;
      Trimmed([], FirstText(a), b.b1);
    }
    if SecondText(a) != [] {
      match a {
        case Slice(_, last) => TextShape(Decimal(last), last);
        case Last(n) => TextShape(Decimal(n), n);
      }
      assert Right(a, b) == b.b2 + SecondText(a) + [];
      Trimmed(b.b2, SecondText(a), []);
    }
  }

  lemma NothingIsBlank()
    ensures Blank([]) && Trim([]) == []
  {
  }

  /** The range a request is read as. */
  function Meant(a: Ask, size: nat): Range {
    match a
    case Slice(first, last) => Range(first, if last < size then last + 1 else size)
    case From(first) => Range(first, size)
    case Last(n) => Range(if n < size then size - n else 0, size)
  }

  lemma PartIsRead(a: Ask, b: Blanks, size: nat)
    requires AllBlank(b) && Small(a) && size < I64_BOUND
    ensures ParsePart(Written(a, b), size) == Some(Meant(a, size))
  {
    hide IsSpace, Decimal, Blank, Trim, ParseI64, Left, Right, Written;
    OuterTrim(a, b);
    InnerTrims(a, b);
    NoDash(a, b);
    var l, r := Left(a, b), Right(a, b);
    assert l + [45] + r == l + ([45] + r);
    FindAfter(l, DASH, [45] + r);
    assert (l + [45] + r)[..|l|] == l && (l + [45] + r)[|l| + 1..] == r;
    SidesNotEmpty(a, b);
    match a {
      case Slice(first, last) =>
        NumberParsed(first);
        NumberParsed(last);
      case From(first) => NumberParsed(first);
      case Last(n) => NumberParsed(n);
    }
  }

  lemma SidesNotEmpty(a: Ask, b: Blanks)
    ensures Left(a, b) != [] || Right(a, b) != []
    ensures FirstText(a) == [] <==> a.Last?
    ensures SecondText(a) == [] <==> a.From?
  {
  }

  /** What is read covers exactly the bytes asked for, and starts behind the end of the file
      exactly if the request does. */
  lemma MeantIsWanted(a: Ask, size: nat, x: int)
    ensures Meant(a, size).start <= x < Meant(a, size).end <==> Wanted(a, size, x)
    ensures Meant(a, size).start >= 0 && (Meant(a, size).start >= size <==> Beyond(a, size))
    ensures !Beyond(a, size) ==> (Meant(a, size).start >= Meant(a, size).end <==> a.Slice? && a.last < a.first)
  {
  }

  // ---------- whole headers ----------

  function Commas(parts: seq<seq<byte>>): seq<byte>
    requires parts != []
  {
    if |parts| == 1 then parts[0] else parts[0] + ([44] + Commas(parts[1..]))
  }

  lemma {:induction false} SplitCommas(parts: seq<seq<byte>>)
    requires parts != [] && forall i :: 0 <= i < |parts| ==> 44 !in parts[i]
    ensures Split(Commas(parts), COMMA) == parts
    decreases |parts|
  {
    hide Find;
    if |parts| == 1 {
      FindNone(parts[0], COMMA);
    } else {
      var rest := Commas(parts[1..]);
      FindAfter(parts[0], COMMA, [44] + rest);
      var all := Commas(parts);
      assert all[..|parts[0]|] == parts[0] && all[|parts[0]| + 1..] == rest;
      SplitCommas(parts[1..]);
    }
  }

  /** A request with the white space it is written with, or something without a dash. */
  datatype Entry = Entry(ask: Ask, blanks: Blanks) | Junk(text: seq<byte>)

  predicate GoodEntry(e: Entry) {
    match e
    case Entry(ask, blanks) => Small(ask) && AllBlank(blanks)
    case Junk(text) => 44 !in text && 45 !in text
  }

  function EntryText(e: Entry): seq<byte> {
    match e
    case Entry(ask, blanks) => Written(ask, blanks)
    case Junk(text) => text
  }

  function EntryTexts(entries: seq<Entry>): (texts: seq<seq<byte>>)
    ensures |texts| == |entries| && forall i :: 0 <= i < |entries| ==> texts[i] == EntryText(entries[i])
  {
    if entries == [] then [] else [EntryText(entries[0])] + EntryTexts(entries[1..])
  }

  /** The requests among the entries. */
  function Asks(entries: seq<Entry>): seq<Ask> {
    if entries == [] then []
    else (if entries[0].Entry? then [entries[0].ask] else []) + Asks(entries[1..])
  }

  function HeaderOf(unit: seq<byte>, entries: seq<Entry>): seq<byte>
    requires entries != []
  {
    unit + ([61] + Commas(EntryTexts(entries)))
  }

  predicate GoodEntries(entries: seq<Entry>) {
    forall i :: 0 <= i < |entries| ==> GoodEntry(entries[i])
  }

  lemma NoComma(e: Entry)
    requires GoodEntry(e)
    ensures 44 !in EntryText(e)
  {
    if e.Entry? {
      match e.ask {
        case Slice(first, last) =>
          DigitsAre(first);
          DigitsAre(last);
        case From(first) => DigitsAre(first);
        case Last(n) => DigitsAre(n);
      }
    }
  }

  function Ranges(asks: seq<Ask>, size: nat): (ranges: seq<Range>)
    ensures |ranges| == |asks|
    ensures forall i :: 0 <= i < |asks| ==> ranges[i] == Meant(asks[i], size)
  {
    if asks == [] then [] else [Meant(asks[0], size)] + Ranges(asks[1..], size)
  }

  lemma EntryIsRead(e: Entry, size: nat)
    requires GoodEntry(e) && size < I64_BOUND
    ensures ParsePart(EntryText(e), size) == if e.Entry? then Some(Meant(e.ask, size)) else None
  {
    hide Written, Meant, ParseI64, Trim;
    match e
    case Entry(ask, blanks) => PartIsRead(ask, blanks, size);
    case Junk(text) =>
      TrimKeepsOut(text, 45);
      FindNone(Trim(text), DASH);
  }

  lemma {:induction false} TrimKeepsOut(s: seq<byte>, b: byte)
    requires b !in s
    ensures b !in Trim(s)
  {
    StartKeepsOut(s, b);
  }

  lemma {:induction false} StartKeepsOut(s: seq<byte>, b: byte)
    requires b !in s
    ensures b !in TrimStart(s)
    decreases |s|
  {
    if s != [] {
      StartKeepsOut(s[1..], b);
    }
  }

  lemma {:induction false} AllRead(entries: seq<Entry>, size: nat)
    requires GoodEntries(entries) && size < I64_BOUND
    ensures Requested(EntryTexts(entries), size) == Ranges(Asks(entries), size)
    decreases |entries|
  {
    hide EntryText, ParsePart, Meant, GoodEntry;
    if entries != [] {
      EntryIsRead(entries[0], size);
      AllRead(entries[1..], size);
      assert EntryTexts(entries)[1..] == EntryTexts(entries[1..]);
      var rest := Asks(entries[1..]);
      if entries[0].Entry? {
        assert ([entries[0].ask] + rest)[1..] == rest;
      } else {
        assert Asks(entries) == rest;
      }
    }
  }

  predicate SomeBeyond(asks: seq<Ask>, size: nat) {
    exists i :: 0 <= i < |asks| && Beyond(asks[i], size)
  }

  predicate SomeReversed(asks: seq<Ask>) {
    exists i :: 0 <= i < |asks| && asks[i].Slice? && asks[i].last < asks[i].first
  }

  predicate SomeWant(asks: seq<Ask>, size: nat, x: int) {
    exists i :: 0 <= i < |asks| && Wanted(asks[i], size, x)
  }

  lemma HeaderSplits(unit: seq<byte>, entries: seq<Entry>)
    requires entries != [] && GoodEntries(entries) && 61 !in unit
    ensures var header := HeaderOf(unit, entries);
            && Find(header, EQUALS) == |unit| < |header| && header[..|unit|] == unit
            && Split(header[|unit| + 1..], COMMA) == EntryTexts(entries)
  {
    hide EntryText, GoodEntry, Split;
    var texts := EntryTexts(entries);
    var rest := Commas(texts);
    FindAfter(unit, EQUALS, [61] + rest);
    forall i | 0 <= i < |texts| ensures 44 !in texts[i] {
      NoComma(entries[i]);
    }
    assert HeaderOf(unit, entries)[|unit| + 1..] == rest;
    SplitCommas(texts);
  }

  /** A header of up to 100 entries, in any white space and the unit in any case: the error,
      if any, is that of its requests, and otherwise the bytes covered are exactly those that
      some request asks for.  One start behind the end of the file refuses all of them, where
      RFC 7233 section 2.1 asks for that only if no request can be met. */
  lemma HeaderMeans(unit: seq<byte>, entries: seq<Entry>, size: nat)
    requires entries != [] && |entries| <= 100 && GoodEntries(entries) && size < I64_BOUND
    requires 61 !in unit && Lowered(Trim(unit)) == Ascii("bytes")
    ensures var header, asks := HeaderOf(unit, entries), Asks(entries);
            && FirstError(header, size) == (if asks == [] then Some(NothingRequested)
                                            else if SomeBeyond(asks, size) then Some(Unsatisfiable(size))
                                            else if SomeReversed(asks) then Some(StartNotLess)
                                            else None)
            && Find(header, EQUALS) < |header| && !TooManyParts(header)
            && forall x: int :: Covers(RangesOf(header, size), x) <==> SomeWant(asks, size, x)
  {
    hide EntryText, Trim, Lowered, Ascii, Split, Requested, Meant, HeaderOf, GoodEntry, Wanted, Beyond;
    var header, asks := HeaderOf(unit, entries), Asks(entries);
    var ranges := Ranges(asks, size);
    HeaderSplits(unit, entries);
    AllRead(entries, size);
    assert RangesOf(header, size) == ranges;
    forall x: int ensures Covers(ranges, x) <==> SomeWant(asks, size, x) {
      WantedCovered(asks, size, x);
    }
    ErrorsMatch(asks, size);
  }

  lemma WantedCovered(asks: seq<Ask>, size: nat, x: int)
    ensures Covers(Ranges(asks, size), x) <==> SomeWant(asks, size, x)
  {
    hide Meant, Wanted;
    forall i | 0 <= i < |asks|
      ensures (Ranges(asks, size)[i].start <= x < Ranges(asks, size)[i].end) <==> Wanted(asks[i], size, x)
    {
      MeantIsWanted(asks[i], size, x);
    }
  }

  lemma ErrorsMatch(asks: seq<Ask>, size: nat)
    ensures var ranges := Ranges(asks, size);
            && ((exists i :: 0 <= i < |ranges| && (ranges[i].start < 0 || ranges[i].start >= size))
                <==> SomeBeyond(asks, size))
            && (!SomeBeyond(asks, size) ==>
                  ((exists i :: 0 <= i < |ranges| && ranges[i].start >= ranges[i].end) <==> SomeReversed(asks)))
  {
    hide Meant, Wanted, Beyond;
    forall i | 0 <= i < |asks|
      ensures var m := Meant(asks[i], size);
              && m.start >= 0 && (m.start >= size <==> Beyond(asks[i], size))
              && (!Beyond(asks[i], size) ==> (m.start >= m.end <==> asks[i].Slice? && asks[i].last < asks[i].first))
    {
      MeantIsWanted(asks[i], size, 0);
    }
  }

  /** More than 100 entries, met or not, give an empty list and no error. */
  lemma ManyMean(unit: seq<byte>, entries: seq<Entry>, size: nat)
    requires |entries| > 100 && GoodEntries(entries)
    requires 61 !in unit && Lowered(Trim(unit)) == Ascii("bytes")
    ensures var header := HeaderOf(unit, entries);
            FirstError(header, size) == None && Find(header, EQUALS) < |header| && TooManyParts(header)
  {
    hide Trim, Lowered, Ascii, Split, HeaderOf, GoodEntry;
    HeaderSplits(unit, entries);
  }

  // ---------- the parts of an answer ----------

  /** The first and the last byte of a range, as a request for it names them. */
  function Named(r: Range): seq<byte>
    requires 0 <= r.start < r.end
  {
    Decimal(r.start) + [45] + Decimal(r.end - 1)
  }

  /** Each part of a multi-range answer names its range: after its boundary and type, the text
      behind `bytes `, read as a request, asks for exactly the bytes that follow. */
  lemma PartNamesItsRange(r: Range, boundary: seq<byte>, contentType: seq<byte>, file: seq<byte>)
    requires InFile(r, |file|) && |file| < I64_BOUND
    ensures ParsePart(Named(r), |file|) == Some(r)
    ensures Part(r, boundary, contentType, file)
            == [Ascii("--") + boundary + Ascii("\r\nContent-Type: ") + contentType
                + Ascii("\r\nContent-Range: bytes ") + (Named(r) + ([47] + (Decimal(|file|) + [13, 10, 13, 10]))),
                file[r.start..r.end], [13, 10]]
  {
    hide Decimal, ParsePart, PartHeader, Named;
    RangeIsAsked(r, |file|);
    Punctuation();
    HeaderText(r, boundary, contentType, |file|);
  }

  lemma RangeIsAsked(r: Range, size: nat)
    requires InFile(r, size) && size < I64_BOUND
    ensures ParsePart(Named(r), size) == Some(r)
  {
    hide Decimal, ParsePart;
    var none := Blanks([], [], [], []);
    PartIsRead(Slice(r.start, r.end - 1), none, size);
    assert Written(Slice(r.start, r.end - 1), none) == Named(r);
  }

  lemma HeaderText(r: Range, boundary: seq<byte>, contentType: seq<byte>, size: nat)
    requires InFile(r, size)
    ensures PartHeader(r, boundary, contentType, size)
            == Ascii("--") + boundary + Ascii("\r\nContent-Type: ") + contentType
               + Ascii("\r\nContent-Range: bytes ") + (Named(r) + ([47] + (Decimal(size) + [13, 10, 13, 10])))
  {
    hide Decimal, Ascii;
    Punctuation();
    var head := Ascii("--") + boundary + Ascii("\r\nContent-Type: ") + contentType + Ascii("\r\nContent-Range: bytes ");
    Grouped(head, Decimal(r.start), Decimal(r.end - 1), Decimal(size));
  }

  lemma Punctuation()
    ensures Ascii("-") == [45] && Ascii("/") == [47]
    ensures Ascii("\r\n") == [13, 10] && Ascii("\r\n\r\n") == [13, 10, 13, 10]
  {
  }

  lemma Grouped(head: seq<byte>, a: seq<byte>, b: seq<byte>, c: seq<byte>)
    ensures head + a + [45] + b + [47] + c + [13, 10, 13, 10]
            == head + ((a + [45] + b) + ([47] + (c + [13, 10, 13, 10])))
  {
  }
}
