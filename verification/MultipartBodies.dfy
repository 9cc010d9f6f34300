/** Multipart bodies as they come: a preamble, slices between delimiters with any line breaks
    behind them, and an epilogue (src/fastapi_mojo_rs/src/bridge/multipart.rs). */
module MultipartBodies {
  import opened Wrappers
  import opened Bits
  import opened AsciiText
  import opened Texts
  import opened Searching
  import opened Multipart
  import opened MultipartRoundTrip

  /** What stands between two delimiters: a line break, or none, and the part. */
  datatype Slice = Slice(break_: seq<byte>, text: seq<byte>)

  predicate GoodSlice(s: Slice, boundary: seq<byte>) {
    && Search(s.text, [13, 10, 45, 45] + boundary).None?
    && (|| s.break_ == [13, 10] || s.break_ == [10]
        || (s.break_ == [13] && !([10] <= s.text))
        || (s.break_ == [] && s.text != [] && s.text[0] !in {10, 13} && !([45, 45] <= s.text)))
  }

  /** The bytes from behind the first boundary on; two dashes close the form. */
  function Behind(slices: seq<Slice>, boundary: seq<byte>, epilogue: seq<byte>): seq<byte>
    requires slices != []
  {
    slices[0].break_ + (slices[0].text + ([13, 10, 45, 45] + boundary
      + if |slices| == 1 then [45, 45] + epilogue else Behind(slices[1..], boundary, epilogue)))
  }

  /** The parts of the slices, in order, up to 32; none if a slice overruns before that. */
  function Collected(slices: seq<Slice>, parts: seq<Part>): Option<seq<Part>>
    decreases |slices|
  {
    if slices == [] || |parts| >= 32 then Some(parts)
    else
      match ParsePart(slices[0].text)
      case Skipped => Collected(slices[1..], parts)
      case Taken(part) => Collected(slices[1..], parts + [part])
      case OutOfRange => None
  }

  lemma NothingInNothing()
    ensures ParsePart([]) == Skipped
  {
  }

  lemma DelimiterIs(boundary: seq<byte>)
    ensures Delimiter(boundary) == [13, 10, 45, 45] + boundary
    ensures Delimiter(boundary) == [13, 10] + ([45, 45] + boundary)
    ensures Delimiter(boundary)[1..] == [10, 45, 45] + boundary
  {
  }

  lemma BreakSkipped(body: seq<byte>, at: nat, s: Slice, boundary: seq<byte>, rest: seq<byte>)
    requires at <= |body| && GoodSlice(s, boundary)
    requires body[at..] == s.break_ + (s.text + ([13, 10, 45, 45] + rest))
    ensures !IsLast(body, at) && SkipBreak(body, at) == at + |s.break_| <= |body|
    ensures body[at + |s.break_|..] == s.text + ([13, 10, 45, 45] + rest)
  {
    hide Search;
    var tail := s.text + ([13, 10, 45, 45] + rest);
    assert tail[0] == if s.text == [] then 13 else s.text[0];
    assert s.break_ == [] ==> tail[1] == if |s.text| == 1 then 13 else s.text[1];
    hide GoodSlice;
    AtBreak(body, at, s.break_, tail);
    Breaks(s, boundary);
  }

  lemma AtBreak(body: seq<byte>, at: nat, break_: seq<byte>, tail: seq<byte>)
    requires at <= |body| && body[at..] == break_ + tail
    ensures at + |break_| <= |body| && body[at + |break_|..] == tail
    ensures forall i :: 0 <= i < |break_| ==> body[at + i] == break_[i]
    ensures forall i :: 0 <= i < |tail| ==> body[at + |break_| + i] == tail[i]
  {
    var b := body[at..];
    assert forall i :: 0 <= i < |b| ==> b[i] == body[at + i];
    assert b[|break_|..] == tail;
  }

  lemma Breaks(s: Slice, boundary: seq<byte>)
    requires GoodSlice(s, boundary)
    ensures s.break_ in {[13, 10], [10], [13], []}
    ensures s.break_ == [13] ==> s.text == [] || s.text[0] != 10
    ensures s.break_ == [] ==> s.text != [] && s.text[0] !in {10, 13}
    ensures s.break_ == [] && |s.text| > 1 && s.text[0] == 45 ==> s.text[1] != 45
  {
    hide Search;
  }

  lemma SliceEnds(text: seq<byte>, boundary: seq<byte>, more: seq<byte>)
    requires 13 !in boundary && Search(text, Delimiter(boundary)).None?
    ensures Search(text + (Delimiter(boundary) + more), Delimiter(boundary)) == Some(|text|)
  {
    hide Search, Occurs;
    var d := Delimiter(boundary);
    DelimiterIs(boundary);
    CannotCross(text, d + more, d);
    FoundAfter(text, d + more, d);
  }

  /** One turn of the loop from behind a line break. */
  lemma OneTurn(body: seq<byte>, start: nat, text: seq<byte>, boundary: seq<byte>, more: seq<byte>, parts: seq<Part>)
    requires start <= |body| && body[start..] == text + (Delimiter(boundary) + more)
    requires 13 !in boundary && Search(text, Delimiter(boundary)).None?
    ensures var after := start + |text| + |Delimiter(boundary)|;
            var piece := ParsePart(text);
            var parts' := if piece.Taken? then parts + [piece.part] else parts;
            && after <= |body| && body[after..] == more && Delimiter(boundary) != []
            && ParseParts(body, start, start, Delimiter(boundary), parts)
               == if piece.OutOfRange? then None
                  else if IsLast(body, after) || |parts'| >= 32 then Some(parts')
                  else ParseParts(body, SkipBreak(body, after), SkipBreak(body, after), Delimiter(boundary), parts')
  {
    hide Search, ParsePart, IsLast, SkipBreak, Delimiter;
    var d := Delimiter(boundary);
    DelimiterNotEmpty(boundary);
    SliceEnds(text, boundary, more);
    assert Found(body, start, d) == Some(start + |text|);
    assert body[start..start + |text|] == text by {
      assert body[start..][..|text|] == text;
    }
    assert body[start + |text| + |d|..] == body[start..][|text| + |d|..] == more;
    NothingInNothing();
  }

  lemma {:induction false} SlicesParse(body: seq<byte>, at: nat, slices: seq<Slice>, boundary: seq<byte>,
                                       epilogue: seq<byte>, parts: seq<Part>)
    requires slices != [] && 13 !in boundary && |parts| < 32 && at <= |body|
    requires forall i :: 0 <= i < |slices| ==> GoodSlice(slices[i], boundary)
    requires body[at..] == Behind(slices, boundary, epilogue)
    ensures !IsLast(body, at) && SkipBreak(body, at) == at + |slices[0].break_| && Delimiter(boundary) != []
    ensures ParseParts(body, SkipBreak(body, at), SkipBreak(body, at), Delimiter(boundary), parts)
            == Collected(slices, parts)
    decreases |slices|
  {
    hide Search, Occurs, GoodSlice, ParsePart, IsLast, SkipBreak, Delimiter, ParseParts, Found, Behind, Collected;
    var s, d := slices[0], Delimiter(boundary);
    var more := if |slices| == 1 then [45, 45] + epilogue else Behind(slices[1..], boundary, epilogue);
    BehindFirst(slices, boundary, epilogue, more);
    SliceTurn(body, at, s, boundary, more, parts);
    var after := at + |s.break_| + |s.text| + |d|;
    var piece := ParsePart(s.text);
    var parts' := if piece.Taken? then parts + [piece.part] else parts;
    CollectedFirst(slices, parts);
    if |slices| == 1 {
      LastDashes(body, after, epilogue);
      NoMore(slices, parts');
    } else if !piece.OutOfRange? && |parts'| < 32 {
      SlicesParse(body, after, slices[1..], boundary, epilogue, parts');
    } else if !piece.OutOfRange? {
      EnoughParts(slices[1..], parts');
    }
  }

  /** One turn of the loop from behind a boundary. */
  lemma SliceTurn(body: seq<byte>, at: nat, s: Slice, boundary: seq<byte>, more: seq<byte>, parts: seq<Part>)
    requires at <= |body| && GoodSlice(s, boundary) && 13 !in boundary
    requires body[at..] == s.break_ + (s.text + (Delimiter(boundary) + more))
    ensures var start := at + |s.break_|;
            var after := start + |s.text| + |Delimiter(boundary)|;
            var piece := ParsePart(s.text);
            var parts' := if piece.Taken? then parts + [piece.part] else parts;
            && !IsLast(body, at) && SkipBreak(body, at) == start
            && after <= |body| && body[after..] == more && Delimiter(boundary) != []
            && ParseParts(body, start, start, Delimiter(boundary), parts)
               == if piece.OutOfRange? then None
                  else if IsLast(body, after) || |parts'| >= 32 then Some(parts')
                  else ParseParts(body, SkipBreak(body, after), SkipBreak(body, after), Delimiter(boundary), parts')
  {
    hide Search, Occurs, GoodSlice, ParsePart, IsLast, SkipBreak, Delimiter, ParseParts, Found;
    DelimiterIs(boundary);
    assert [13, 10, 45, 45] + boundary + more == [13, 10, 45, 45] + (boundary + more);
    BreakSkipped(body, at, s, boundary, boundary + more);
    GoodText(s, boundary);
    OneTurn(body, at + |s.break_|, s.text, boundary, more, parts);
  }

  lemma BehindFirst(slices: seq<Slice>, boundary: seq<byte>, epilogue: seq<byte>, more: seq<byte>)
    requires slices != []
    requires more == if |slices| == 1 then [45, 45] + epilogue else Behind(slices[1..], boundary, epilogue)
    ensures var all := Behind(slices, boundary, epilogue);
            all == slices[0].break_ + (slices[0].text + (Delimiter(boundary) + more))
  {
    DelimiterIs(boundary);
    hide Delimiter;
  }

  lemma CollectedFirst(slices: seq<Slice>, parts: seq<Part>)
    requires slices != [] && |parts| < 32
    ensures var piece := ParsePart(slices[0].text);
            Collected(slices, parts)
            == if piece.OutOfRange? then None
               else Collected(slices[1..], if piece.Taken? then parts + [piece.part] else parts)
  {
    hide ParsePart;
  }

  lemma GoodText(s: Slice, boundary: seq<byte>)
    requires GoodSlice(s, boundary)
    ensures Search(s.text, Delimiter(boundary)).None?
  {
    hide Search;
    DelimiterIs(boundary);
  }

  lemma LastDashes(body: seq<byte>, at: nat, epilogue: seq<byte>)
    requires at <= |body| && body[at..] == [45, 45] + epilogue
    ensures IsLast(body, at)
  {
    assert body[at] == body[at..][0] && body[at + 1] == body[at..][1];
  }

  lemma NoMore(slices: seq<Slice>, parts: seq<Part>)
    requires |slices| == 1
    ensures Collected(slices[1..], parts) == Some(parts)
  {
  }

  lemma EnoughParts(slices: seq<Slice>, parts: seq<Part>)
    requires |parts| >= 32
    ensures Collected(slices, parts) == Some(parts)
  {
  }

  // ---------- the first boundary ----------

  lemma OpeningInside(body: seq<byte>, boundary: seq<byte>, p: nat)
    ensures Occurs(body, Delimiter(boundary), p) ==>
              Occurs(body, [45, 45] + boundary, p + 2) && body[p] == 13 && body[p + 1] == 10
  {
    DelimiterIs(boundary);
    var d := Delimiter(boundary);
    if Occurs(body, d, p) {
      var found := body[p..p + |d|];
      assert found[2..] == body[p + 2..p + |d|] && d[2..] == [45, 45] + boundary;
      assert found[0] == body[p] && found[1] == body[p + 1];
    }
  }

  /** The delimiter is found at the end of the preamble, if that ends in a line break, or else
      behind the first line break. */
  lemma FirstDelimiter(preamble: seq<byte>, boundary: seq<byte>, s: Slice, rest: seq<byte>)
    requires 13 !in boundary && GoodSlice(s, boundary)
    requires !([45, 45] + boundary <= s.text)
    requires var body := preamble + ([45, 45] + boundary + (s.break_ + (s.text + (Delimiter(boundary) + rest))));
             forall p :: 0 <= p < |preamble| ==> !Occurs(body, [45, 45] + boundary, p)
    ensures var opening := [45, 45] + boundary;
            var body := preamble + (opening + (s.break_ + (s.text + (Delimiter(boundary) + rest))));
            var start := |preamble| + |opening| + |s.break_|;
            forall p :: 0 <= p < start && Occurs(body, Delimiter(boundary), p) ==> p + 2 == |preamble|
  {
    hide Search, Occurs, Delimiter, GoodSlice;
    var opening, d := [45, 45] + boundary, Delimiter(boundary);
    var tail := s.text + (d + rest);
    var body := preamble + (opening + (s.break_ + tail));
    var start := |preamble| + |opening| + |s.break_|;
    Layout(preamble, opening, s.break_, tail);
    DelimiterIs(boundary);
    assert (d + rest)[0] == 13;
    NotInBreak(body, start, s, boundary, d + rest);
    forall p: nat | p < start ensures Occurs(body, d, p) ==> p + 2 == |preamble| {
      OpeningInside(body, boundary, p);
      if p + 1 >= |preamble| {
        assert body[|preamble|] == opening[0] == 45;
      }
    }
  }

  lemma Layout(preamble: seq<byte>, opening: seq<byte>, break_: seq<byte>, tail: seq<byte>)
    ensures var body := preamble + (opening + (break_ + tail));
            var start := |preamble| + |opening| + |break_|;
            && |body| == start + |tail| && body[start..] == tail
            && (forall p :: |preamble| <= p < |preamble| + |opening| ==> body[p] == opening[p - |preamble|])
            && forall p :: |preamble| + |opening| <= p < start ==> body[p] == break_[p - |preamble| - |opening|]
  {
  }

  /** No delimiter starts in the line break behind the opening. */
  lemma NotInBreak(body: seq<byte>, start: nat, s: Slice, boundary: seq<byte>, after: seq<byte>)
    requires GoodSlice(s, boundary) && 13 !in boundary && !([45, 45] + boundary <= s.text)
    requires |s.break_| <= start <= |body| && body[start..] == s.text + after && after != [] && after[0] == 13
    requires forall q :: start - |s.break_| <= q < start ==> body[q] == s.break_[q - (start - |s.break_|)]
    ensures forall p: nat :: start - |s.break_| <= p < start ==>
              !(body[p] == 13 && p + 1 < |body| && body[p + 1] == 10 && Occurs(body, [45, 45] + boundary, p + 2))
  {
    hide Search, GoodSlice;
    Breaks(s, boundary);
    NotOpening(body, start, s.text, boundary, after);
    assert body[start] == body[start..][0];
    assert body[start..][0] == if s.text == [] then 13 else s.text[0];
  }

  lemma NotOpening(body: seq<byte>, start: nat, text: seq<byte>, boundary: seq<byte>, after: seq<byte>)
    requires start <= |body| && body[start..] == text + after && after != [] && after[0] == 13
    requires 13 !in boundary && !([45, 45] + boundary <= text)
    ensures !Occurs(body, [45, 45] + boundary, start)
  {
    var opening, tail := [45, 45] + boundary, text + after;
    if start + |opening| <= |body| {
      var found := body[start..start + |opening|];
      assert found == tail[..|opening|];
      if |text| < |opening| {
        assert found[|text|] == 13 && opening[|text|] != 13;
      } else {
        assert found == text[..|opening|];
      }
    }
  }

  /** Any form in any layout: whatever comes before the first boundary, with the line breaks the
      sender chose, the parts are those of the slices. */
  lemma BodyMeans(contentType: seq<byte>, boundary: seq<byte>, preamble: seq<byte>, slices: seq<Slice>,
                  epilogue: seq<byte>)
    requires Boundary(contentType) == Some(boundary) && boundary != [] && 13 !in boundary && slices != []
    requires forall i :: 0 <= i < |slices| ==> GoodSlice(slices[i], boundary)
    requires !([45, 45] + boundary <= slices[0].text)
    requires var body := preamble + ([45, 45] + boundary + Behind(slices, boundary, epilogue));
             forall p :: 0 <= p < |preamble| ==> !Occurs(body, [45, 45] + boundary, p)
    ensures Parse(preamble + ([45, 45] + boundary + Behind(slices, boundary, epilogue)), contentType)
            == match Collected(slices, []) case None => Overrun case Some(parts) => Parts(parts)
  {
    hide Search, Occurs, GoodSlice, ParseParts, IsLast, SkipBreak, Delimiter, Collected, Behind;
    var opening, d := [45, 45] + boundary, Delimiter(boundary);
    var all := Behind(slices, boundary, epilogue);
    var body, at := preamble + (opening + all), |preamble| + |opening|;
    assert body[at..] == all;
    assert body == preamble + ([45, 45] + boundary + Behind(slices, boundary, epilogue));
    OpeningFirst(body, preamble, opening, all);
    SlicesParse(body, at, slices, boundary, epilogue, []);
    FirstTurn(body, preamble, boundary, slices, epilogue);
    ParsedThere(body, contentType, boundary, |preamble|);
  }

  lemma OpeningFirst(body: seq<byte>, preamble: seq<byte>, opening: seq<byte>, rest: seq<byte>)
    requires body == preamble + (opening + rest) && forall p :: 0 <= p < |preamble| ==> !Occurs(body, opening, p)
    ensures Found(body, 0, opening) == Some(|preamble|)
  {
    hide Occurs, Search;
    FoundAfter(preamble, opening + rest, opening);
    assert body[0..] == body;
  }

  lemma ParsedThere(body: seq<byte>, contentType: seq<byte>, boundary: seq<byte>, first: nat)
    requires Boundary(contentType) == Some(boundary) && boundary != [] && body != []
    requires Found(body, 0, [45, 45] + boundary) == Some(first)
    ensures first + 2 + |boundary| <= |body| && Delimiter(boundary) != []
    ensures var r := ParseParts(body, SkipBreak(body, first + 2 + |boundary|), 0, Delimiter(boundary), []);
            Parse(body, contentType) == match r case None => Overrun case Some(parts) => Parts(parts)
  {
    hide Search, ParseParts, SkipBreak, Delimiter, Boundary;
    FoundFits(body, 0, [45, 45] + boundary);
    DelimiterNotEmpty(boundary);
    assert [DASH, DASH] + boundary == [45, 45] + boundary;
  }

  /** The first search starts at the very beginning, and comes to the same. */
  lemma FirstTurn(body: seq<byte>, preamble: seq<byte>, boundary: seq<byte>, slices: seq<Slice>, epilogue: seq<byte>)
    requires slices != [] && 13 !in boundary && GoodSlice(slices[0], boundary)
    requires !([45, 45] + boundary <= slices[0].text)
    requires body == preamble + ([45, 45] + boundary + Behind(slices, boundary, epilogue))
    requires forall p :: 0 <= p < |preamble| ==> !Occurs(body, [45, 45] + boundary, p)
    requires var at := |preamble| + 2 + |boundary|;
             at <= |body| && !IsLast(body, at) && SkipBreak(body, at) == at + |slices[0].break_|
    ensures var start := SkipBreak(body, |preamble| + 2 + |boundary|);
            Delimiter(boundary) != [] && ParseParts(body, start, 0, Delimiter(boundary), [])
                                         == ParseParts(body, start, start, Delimiter(boundary), [])
  {
    hide Search, Occurs, GoodSlice, IsLast, SkipBreak, Delimiter, Behind, ParseParts, Found;
    var s, d, opening := slices[0], Delimiter(boundary), [45, 45] + boundary;
    var at := |preamble| + |opening|;
    var start := at + |s.break_|;
    var rest := if |slices| == 1 then [45, 45] + epilogue else Behind(slices[1..], boundary, epilogue);
    BehindFirst(slices, boundary, epilogue, rest);
    DelimiterNotEmpty(boundary);
    FirstDelimiter(preamble, boundary, s, rest);
    SameSearch(body, d, start, |preamble|);
    var first := Found(body, 0, d);
    if first != Found(body, start, d) {
      DelimiterIs(boundary);
      assert first.value + |d| == at;
      SkippedTurn(body, start, d, first.value);
    } else {
      SameTurn(body, start, d);
    }
  }

  lemma SameSearch(body: seq<byte>, d: seq<byte>, start: nat, n: nat)
    requires start <= |body| && forall p :: 0 <= p < start && Occurs(body, d, p) ==> p + 2 == n
    ensures Found(body, 0, d) == Found(body, start, d) || (Found(body, 0, d).Some? && Found(body, 0, d).value + 2 == n)
    ensures Found(body, 0, d) != Found(body, start, d) ==> Found(body, 0, d).value < start
  {
    hide Occurs, Search;
    assert body[0..] == body;
    SearchMeans(body[start..], d);
    forall p: nat ensures Occurs(body, d, start + p) <==> Occurs(body[start..], d, p) {
      assert body == body[..start] + body[start..];
      OccursShifted(body[..start], body[start..], d, p);
    }
    var a, b := Search(body, d), Search(body[start..], d);
    if b.Some? {
      assert Occurs(body, d, start + b.value);
    }
    SearchMeans(body, d);
    if a.Some? && a.value >= start {
      assert Occurs(body[start..], d, a.value - start);
    }
  }

  lemma SkippedTurn(body: seq<byte>, start: nat, d: seq<byte>, next: nat)
    requires start <= |body| && d != [] && Found(body, 0, d) == Some(next) && next < start && next + |d| <= |body|
    requires !IsLast(body, next + |d|) && SkipBreak(body, next + |d|) == start
    ensures ParseParts(body, start, 0, d, []) == ParseParts(body, start, start, d, [])
  {
    hide Found, IsLast, SkipBreak;
  }

  lemma SameTurn(body: seq<byte>, start: nat, d: seq<byte>)
    requires start <= |body| && d != [] && Found(body, 0, d) == Found(body, start, d)
    ensures ParseParts(body, start, 0, d, []) == ParseParts(body, start, start, d, [])
  {
    hide Found, IsLast, SkipBreak, ParsePart;
  }
}
