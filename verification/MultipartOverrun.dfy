/** When the multipart parser slices out of range: exactly which bodies make it stop
    (src/fastapi_mojo_rs/src/bridge/multipart.rs). */
module MultipartOverrun {
  import opened Wrappers
  import opened Bits
  import opened AsciiText
  import opened Texts
  import opened Searching
  import opened Multipart
  import MultipartRoundTrip

  // ---------- one slice ----------

  /** The line feed at i ends a blank line. */
  predicate BlankAt(s: seq<byte>, i: nat)
    requires i < |s|
  {
    s[i] == LF && (i == 0 || s[i - 1] == LF || (s[i - 1] == CR && (i == 1 || s[i - 2] == LF)))
  }

  predicate HasBlankLine(s: seq<byte>) {
    exists i :: 0 <= i < |s| && BlankAt(s, i)
  }

  /** The last line is a carriage return without a line feed. */
  predicate EndsInLoneReturn(s: seq<byte>) {
    s != [] && s[|s| - 1] == CR && (|s| == 1 || s[|s| - 2] == LF)
  }

  lemma BlankFurther(s: seq<byte>, end: nat)
    requires end < |s| && s[end] == LF && LF !in s[..end]
    requires end > 0 && !(end == 1 && s[0] == CR)
    ensures HasBlankLine(s) <==> HasBlankLine(s[end + 1..])
    ensures EndsInLoneReturn(s) <==> EndsInLoneReturn(s[end + 1..])
  {
    var tail := s[end + 1..];
    forall j: nat | j < |tail| ensures BlankAt(s, end + 1 + j) <==> BlankAt(tail, j) {
    }
    forall i: nat | i <= end ensures !BlankAt(s, i) {
      assert i < end ==> s[i] in s[..end];
      assert i >= 1 ==> s[i - 1] in s[..end];
      assert i >= 2 ==> s[i - 2] in s[..end];
    }
    if HasBlankLine(tail) {
      var j :| 0 <= j < |tail| && BlankAt(tail, j);
      assert BlankAt(s, end + 1 + j);
    }
    if HasBlankLine(s) {
      var i :| 0 <= i < |s| && BlankAt(s, i);
      assert BlankAt(tail, i - end - 1);
    }
  }

  /** The header block ends at the first blank line, or else at a lone return at the end;
      in that case, and only then, the body would start past the end. */
  lemma {:induction false} SplitMeans(part: seq<byte>)
    ensures SplitHeaders(part).Some? <==> HasBlankLine(part) || EndsInLoneReturn(part)
    ensures SplitHeaders(part).Some? && SplitHeaders(part).value.body > |part|
            <==> EndsInLoneReturn(part) && !HasBlankLine(part)
    decreases |part|
  {
    if part != [] {
      var end := Find(part, LF);
      if end == 0 {
        assert BlankAt(part, 0);
      } else if end == 1 && part[0] == CR {
        assert |part| > 1 ==> BlankAt(part, 1);
      } else if end < |part| {
        BlankFurther(part, end);
        SplitMeans(part[end + 1..]);
      }
    }
  }

  predicate Overruns(slice: seq<byte>) {
    EndsInLoneReturn(slice) && !HasBlankLine(slice)
  }

  lemma OutOfRangeIff(slice: seq<byte>)
    ensures ParsePart(slice).OutOfRange? <==> Overruns(slice)
  {
    hide ApplyLines, MakePart, HasBlankLine, EndsInLoneReturn;
    SplitMeans(slice);
  }

  // ---------- a whole body ----------

  /** The slices between the delimiters, up to the closing one. */
  function Slices(body: seq<byte>, start: nat, from: nat, delimiter: seq<byte>): seq<seq<byte>>
    requires start <= |body| && from <= |body| && delimiter != []
    decreases |body| - from
  {
    match Found(body, from, delimiter)
    case None => []
    case Some(next) =>
      FoundFits(body, from, delimiter);
      var after := next + |delimiter|;
      [if next > start then body[start..next] else []]
      + if IsLast(body, after) then []
        else Slices(body, SkipBreak(body, after), SkipBreak(body, after), delimiter)
  }

  /** How many of the slices are parts. */
  function Kept(slices: seq<seq<byte>>): nat {
    if slices == [] then 0 else (if ParsePart(slices[0]).Taken? then 1 else 0) + Kept(slices[1..])
  }

  /** One of the slices overruns before as many parts are kept as there may be. */
  predicate SomeOverruns(slices: seq<seq<byte>>, kept: nat) {
    exists k :: 0 <= k < |slices| && Overruns(slices[k]) && kept + Kept(slices[..k]) < MAX_PARTS
  }

  lemma AfterFirst(slice: seq<byte>, more: seq<seq<byte>>)
    ensures Kept([slice] + more) == (if ParsePart(slice).Taken? then 1 else 0) + Kept(more)
  {
    assert ([slice] + more)[1..] == more;
  }

  lemma SomeOverrunsCons(slice: seq<byte>, more: seq<seq<byte>>, kept: nat)
    requires kept < MAX_PARTS
    ensures SomeOverruns([slice] + more, kept)
            <==> Overruns(slice) || SomeOverruns(more, kept + if ParsePart(slice).Taken? then 1 else 0)
  {
    hide Overruns, ParsePart;
    var all := [slice] + more;
    forall k | 0 < k <= |more|
      ensures Kept(all[..k]) == (if ParsePart(slice).Taken? then 1 else 0) + Kept(more[..k - 1])
    {
      assert all[..k] == [slice] + more[..k - 1];
      AfterFirst(slice, more[..k - 1]);
    }
    if SomeOverruns(all, kept) && !Overruns(slice) {
      var k :| 0 <= k < |all| && Overruns(all[k]) && kept + Kept(all[..k]) < MAX_PARTS;
      assert more[k - 1] == all[k];
    }
    var now := kept + if ParsePart(slice).Taken? then 1 else 0;
    if SomeOverruns(more, now) {
      var k :| 0 <= k < |more| && Overruns(more[k]) && now + Kept(more[..k]) < MAX_PARTS;
      assert all[k + 1] == more[k];
    }
    if Overruns(slice) {
      assert all[0] == slice && all[..0] == [];
    }
  }

  lemma {:induction false} PartsOverrunIff(body: seq<byte>, start: nat, from: nat, delimiter: seq<byte>,
                                           parts: seq<Part>)
    requires start <= |body| && from <= |body| && delimiter != [] && |parts| < MAX_PARTS
    ensures ParseParts(body, start, from, delimiter, parts).None?
            <==> SomeOverruns(Slices(body, start, from, delimiter), |parts|)
    decreases |body| - from
  {
    hide ParsePart, Overruns, SomeOverruns, IsLast, SkipBreak, Found, Occurs;
    match Found(body, from, delimiter)
    case None => NoneOverruns(|parts|);
    case Some(next) =>
      FoundFits(body, from, delimiter);
      var after := next + |delimiter|;
      var slice := if next > start then body[start..next] else [];
      var piece := ParsePart(slice);
      OutOfRangeIff(slice);
      EmptySlice();
      var parts' := if piece.Taken? then parts + [piece.part] else parts;
      var more := if IsLast(body, after) then []
          else Slices(body, SkipBreak(body, after), SkipBreak(body, after), delimiter);
      SomeOverrunsCons(slice, more, |parts|);
      if |parts'| >= MAX_PARTS {
        FullOverruns(more, |parts'|);
      } else if IsLast(body, after) {
        NoneOverruns(|parts'|);
      } else if !piece.OutOfRange? {
        PartsOverrunIff(body, SkipBreak(body, after), SkipBreak(body, after), delimiter, parts');
      }
  }

  lemma NoneOverruns(kept: nat)
    ensures !SomeOverruns([], kept)
  {
  }

  lemma FullOverruns(slices: seq<seq<byte>>, kept: nat)
    requires kept >= MAX_PARTS
    ensures !SomeOverruns(slices, kept)
  {
  }

  lemma EmptySlice()
    ensures ParsePart([]) == Skipped && !Overruns([])
  {
  }

  /** The slices of a body, if it is read at all. */
  function FormSlices(body: seq<byte>, contentType: seq<byte>): seq<seq<byte>> {
    match Boundary(contentType)
    case None => []
    case Some(boundary) =>
      var opening := [DASH, DASH] + boundary;
      if boundary == [] then []
      else
        match Found(body, 0, opening)
        case None => []
        case Some(first) =>
          FoundFits(body, 0, opening);
          Slices(body, SkipBreak(body, first + |opening|), 0, Delimiter(boundary))
  }

  /** The parser stops at an index out of range if and only if a slice between two delimiters
      has no blank line and a lone carriage return for its last line, and fewer than 32 of the
      slices before it are parts. */
  lemma OverrunIff(body: seq<byte>, contentType: seq<byte>)
    ensures Parse(body, contentType).Overrun? <==> SomeOverruns(FormSlices(body, contentType), 0)
  {
    hide Boundary, SomeOverruns, ParseParts, Slices, SkipBreak;
    NoneOverruns(0);
    if Boundary(contentType).Some? && Boundary(contentType).value != [] {
      var boundary := Boundary(contentType).value;
      var opening := [DASH, DASH] + boundary;
      if Found(body, 0, opening).Some? {
        FoundFits(body, 0, opening);
        var first := Found(body, 0, opening).value;
        PartsOverrunIff(body, SkipBreak(body, first + |opening|), 0, Delimiter(boundary), []);
      }
    }
  }

  // ---------- such a body exists ----------

  lemma FirstOccurs(s: seq<byte>, needle: seq<byte>, at: nat)
    requires Occurs(s, needle, at) && forall p :: 0 <= p < at ==> !Occurs(s, needle, p)
    ensures Found(s, 0, needle) == Some(at)
  {
    hide Occurs;
    SearchMeans(s, needle);
    assert s[0..] == s;
  }

  lemma OverrunBytes(contentType: seq<byte>)
    requires Boundary(contentType) == Some([98])
    ensures Parse([DASH, DASH, 98, CR, LF, CR, CR, LF, DASH, DASH, 98, DASH, DASH], contentType) == Overrun
  {
    hide Boundary, ParsePart;
    var b: seq<byte> := [98];
    var body: seq<byte> := [DASH, DASH, 98, CR, LF, CR, CR, LF, DASH, DASH, 98, DASH, DASH];
    assert body[0..3] == [DASH, DASH] + b && body[6..11] == Delimiter(b);
    FirstOccurs(body, [DASH, DASH] + b, 0);
    forall p | 0 <= p < 6 ensures !Occurs(body, Delimiter(b), p) {
      assert body[p..p + 5][1] == body[p + 1] && body[p..p + 5][0] == body[p] && body[p..p + 5][2] == body[p + 2];
      assert Delimiter(b)[0] == CR && Delimiter(b)[1] == LF && Delimiter(b)[2] == DASH;
    }
    FirstOccurs(body, Delimiter(b), 6);
    assert body[5..6] == [CR];
    OutOfRangeIff([CR]);
  }

  /** A part that is one carriage return stops the parser. */
  lemma OverrunBody()
    ensures Parse(Ascii("--b") + [CR, LF] + [CR] + [CR, LF] + Ascii("--b--"),
                  Ascii("multipart/form-data; boundary=") + Ascii("b")) == Overrun
  {
    hide Boundary, Parse;
    assert Ascii("b") == [98];
    assert Ascii("--b") + [CR, LF] + [CR] + [CR, LF] + Ascii("--b--")
        == [DASH, DASH, 98, CR, LF, CR, CR, LF, DASH, DASH, 98, DASH, DASH];
    MultipartRoundTrip.BoundaryFoundIff(Ascii("b"));
    OverrunBytes(Ascii("multipart/form-data; boundary=") + Ascii("b"));
  }
}
