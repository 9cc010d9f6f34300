/** Byte ranges of the file server: the Range header, and the length of a multi-range body
    (src/fastapi_mojo_rs/src/bridge/file_protocol.rs and file_serve.rs). */
module ByteRanges {
  import opened Wrappers
  import opened Bits
  import opened AsciiText
  import opened Decimals
  import opened Texts

  /** From start up to, not including, end. */
  datatype Range = Range(start: int, end: int)

  datatype RangeError = NoUnit | WrongUnit | NothingRequested | StartNotLess | Unsatisfiable(size: int)

  const COMMA: byte := 44
  const DASH: byte := 45
  const EQUALS: byte := 61
  const MAX_PARTS: nat := 100

  // ---------- one part ----------

  /** The range of 64-bit signed integers, and wrapping into it. */
  const I64_BOUND: int := 0x8000_0000_0000_0000

  function AsI64(v: int): int {
    (v + I64_BOUND) % (2 * I64_BOUND) - I64_BOUND
  }

  /** An optional sign and digits, within 64 bits. */
  function ParseI64(s: seq<byte>): Option<int> {
    var signed := s != [] && (s[0] == 43 || s[0] == DASH);
    var digits := if signed then s[1..] else s;
    if digits == [] || !AllDigits(digits) then None
    else
      var magnitude: int := DecimalValue(digits);
      var v := if signed && s[0] == DASH then -magnitude else magnitude;
      if -I64_BOUND <= v < I64_BOUND then Some(v) else None
  }

  function Max(a: int, b: int): int {
    if a < b then b else a
  }

  /** One requested range; None when the part is skipped. */
  function ParsePart(raw: seq<byte>, size: int): Option<Range> {
    var part := Trim(raw);
    var dash := Find(part, DASH);
    if part == [] || part == [DASH] || dash == |part| then None
    else
      var s, e := Trim(part[..dash]), Trim(part[dash + 1..]);
      if s == [] then
        match ParseI64(e) case None => None case Some(n) => Some(Range(Max(AsI64(size - n), 0), size))
      else
        match ParseI64(s)
        case None => None
        case Some(start) =>
          if e == [] then Some(Range(start, size))
          else
            match ParseI64(e)
            case None => None
            case Some(last) => Some(Range(start, if last < size then last + 1 else size))
  }

  /** The pieces between the separators; never none. */
  function Split(s: seq<byte>, separator: byte): (parts: seq<seq<byte>>)
    ensures parts != []
    decreases |s|
  {
    var at := Find(s, separator);
    if at == |s| then [s] else [s[..at]] + Split(s[at + 1..], separator)
  }

  /** The valid ranges among the parts, in order. */
  function Requested(parts: seq<seq<byte>>, size: int): seq<Range> {
    if parts == [] then []
    else
      var rest := Requested(parts[1..], size);
      match ParsePart(parts[0], size) case None => rest case Some(r) => [r] + rest
  }

  // ---------- sets of bytes ----------

  predicate Covers(ranges: seq<Range>, x: int) {
    exists i :: 0 <= i < |ranges| && ranges[i].start <= x < ranges[i].end
  }

  predicate InFile(r: Range, size: int) {
    0 <= r.start < r.end <= size
  }

  /** Non-empty ranges of the file, in order, with a gap between any two. */
  predicate Normal(ranges: seq<Range>, size: int) {
    && (forall i :: 0 <= i < |ranges| ==> InFile(ranges[i], size))
    && (forall i, j :: 0 <= i < j < |ranges| ==> ranges[i].end < ranges[j].start)
  }

  ghost predicate SameBytes(a: seq<Range>, b: seq<Range>) {
    forall x: int :: Covers(a, x) <==> Covers(b, x)
  }

  lemma {:induction false} NormalEnds(ranges: seq<Range>, size: int, x: int)
    requires Normal(ranges, size) && ranges != []
    ensures Covers(ranges, ranges[0].start)
    ensures Covers(ranges, x) ==> ranges[0].start <= x
  {
  }

  /** A normal list is determined by the bytes it covers: the same bytes, the same list. */
  lemma {:induction false} NormalIsUnique(a: seq<Range>, b: seq<Range>, size: int)
    requires Normal(a, size) && Normal(b, size) && SameBytes(a, b)
    ensures a == b
    decreases |a|
  {
    if a == [] {
      if b != [] {
        NormalEnds(b, size, 0);
        assert false;
      }
    } else {
      NormalEnds(a, size, 0);
      assert Covers(b, a[0].start);
      NormalEnds(b, size, a[0].start);
      assert Covers(a, b[0].start);
      NormalEnds(a, size, b[0].start);
      FirstEnds(a, b, size);
      FirstEnds(b, a, size);
      forall x: int ensures Covers(a[1..], x) <==> Covers(b[1..], x) {
        TailCovers(a, size, x);
        TailCovers(b, size, x);
      }
      NormalIsUnique(a[1..], b[1..], size);
    }
  }

  lemma FirstEnds(a: seq<Range>, b: seq<Range>, size: int)
    requires Normal(a, size) && Normal(b, size) && SameBytes(a, b) && a != [] && b != [] && a[0].start == b[0].start
    ensures a[0].end <= b[0].end
  {
    EndUncovered(b, size);
    FirstCovers(a, b[0].end);
  }

  lemma EndUncovered(ranges: seq<Range>, size: int)
    requires Normal(ranges, size) && ranges != []
    ensures !Covers(ranges, ranges[0].end)
  {
  }

  lemma FirstCovers(ranges: seq<Range>, x: int)
    requires ranges != []
    ensures ranges[0].start <= x < ranges[0].end ==> Covers(ranges, x)
  {
  }

  /** Past the first range, what is covered is covered by the others. */
  lemma TailCovers(ranges: seq<Range>, size: int, x: int)
    requires Normal(ranges, size) && ranges != []
    ensures Covers(ranges[1..], x) <==> Covers(ranges, x) && x >= ranges[0].end
  {
  }

  // ---------- the header ----------

  predicate Before(a: Range, b: Range) {
    a.start < b.start || (a.start == b.start && a.end <= b.end)
  }

  function Insert(r: Range, sorted: seq<Range>): (all: seq<Range>)
    ensures multiset(all) == multiset(sorted) + multiset{r}
  {
    if sorted == [] || Before(r, sorted[0]) then
      [r] + sorted
    else
      assert sorted == [sorted[0]] + sorted[1..];
      [sorted[0]] + Insert(r, sorted[1..])
  }

  /** The ranges in order; the library sort. */
  function Sort(ranges: seq<Range>): (all: seq<Range>)
    ensures multiset(all) == multiset(ranges)
  {
    if ranges == [] then []
    else
      assert ranges == [ranges[0]] + ranges[1..];
      Insert(ranges[0], Sort(ranges[1..]))
  }

  predicate InOrder(ranges: seq<Range>) {
    forall i, j :: 0 <= i < j < |ranges| ==> Before(ranges[i], ranges[j])
  }

  lemma {:induction false} InsertKeepsOrder(r: Range, sorted: seq<Range>)
    requires InOrder(sorted)
    ensures InOrder(Insert(r, sorted))
  {
    if sorted != [] && !Before(r, sorted[0]) {
      InsertKeepsOrder(r, sorted[1..]);
      var rest := Insert(r, sorted[1..]);
      forall j | 0 <= j < |rest| ensures Before(sorted[0], rest[j]) {
        assert rest[j] in multiset(rest);
        assert rest[j] == r || rest[j] in sorted[1..];
      }
    }
  }

  lemma {:induction false} SortOrders(ranges: seq<Range>)
    ensures InOrder(Sort(ranges))
  {
    if ranges != [] {
      SortOrders(ranges[1..]);
      InsertKeepsOrder(ranges[0], Sort(ranges[1..]));
    }
  }

  lemma SameElements(a: seq<Range>, b: seq<Range>)
    requires multiset(a) == multiset(b)
    ensures SameBytes(a, b)
    ensures forall r :: r in a <==> r in b
  {
    assert forall r :: r in a <==> r in multiset(a);
    assert forall r :: r in b <==> r in multiset(b);
    forall x: int ensures Covers(a, x) <==> Covers(b, x) {
      CoversMember(a, b, x);
      CoversMember(b, a, x);
    }
  }

  lemma CoversMember(a: seq<Range>, b: seq<Range>, x: int)
    requires forall r :: r in a ==> r in b
    ensures Covers(a, x) ==> Covers(b, x)
  {
    if Covers(a, x) {
      var i :| 0 <= i < |a| && a[i].start <= x < a[i].end;
      assert a[i] in b;
    }
  }

  // ---------- merging ----------

  /** One more range, starting no earlier than the last one: joined to it or put behind it. */
  function Join(ranges: seq<Range>, r: Range): (all: seq<Range>)
    requires ranges != []
    ensures all != []
  {
    var last := ranges[|ranges| - 1];
    if r.start <= last.end then ranges[|ranges| - 1 := last.(end := Max(last.end, r.end))] else ranges + [r]
  }

  lemma JoinKeeps(ranges: seq<Range>, r: Range, size: int)
    requires ranges != [] && Normal(ranges, size) && InFile(r, size) && ranges[|ranges| - 1].start <= r.start
    ensures var all := Join(ranges, r); Normal(all, size) && all[|all| - 1].start <= r.start
    ensures SameBytes(Join(ranges, r), ranges + [r])
  {
    forall x: int ensures Covers(Join(ranges, r), x) <==> Covers(ranges + [r], x) {
      CoversSnoc(ranges, r, x);
      JoinCovers(ranges, r, x);
    }
  }

  lemma JoinCovers(ranges: seq<Range>, r: Range, x: int)
    requires ranges != [] && ranges[|ranges| - 1].start <= r.start < r.end
    ensures Covers(Join(ranges, r), x) <==> Covers(ranges, x) || r.start <= x < r.end
  {
    var all, k := Join(ranges, r), |ranges| - 1;
    if r.start > ranges[k].end {
      CoversSnoc(ranges, r, x);
    } else {
      assert ranges == ranges[..k] + [ranges[k]] && all == ranges[..k] + [all[k]];
      CoversSnoc(ranges[..k], ranges[k], x);
      CoversSnoc(ranges[..k], all[k], x);
    }
  }

  lemma SameBytesSnoc(a: seq<Range>, b: seq<Range>, r: Range)
    requires SameBytes(a, b)
    ensures SameBytes(a + [r], b + [r])
  {
    forall x: int ensures Covers(a + [r], x) <==> Covers(b + [r], x) {
      CoversSnoc(a, r, x);
      CoversSnoc(b, r, x);
    }
  }

  lemma CoversSnoc(a: seq<Range>, r: Range, x: int)
    ensures Covers(a + [r], x) <==> Covers(a, x) || r.start <= x < r.end
  {
    if Covers(a, x) {
      var i :| 0 <= i < |a| && a[i].start <= x < a[i].end;
      assert (a + [r])[i] == a[i];
    }
    if r.start <= x < r.end {
      assert (a + [r])[|a|] == r;
    }
  }

  /** Joins overlapping and touching ranges of a sorted list. */
  method MergeSorted(ranges: seq<Range>, ghost size: int) returns (result: seq<Range>)
    requires ranges != [] && InOrder(ranges) && forall i :: 0 <= i < |ranges| ==> InFile(ranges[i], size)
    ensures Normal(result, size) && result != [] && SameBytes(result, ranges)
  {
    hide Covers;
    result := [ranges[0]];
    assert ranges[..1] == result;
    for i := 1 to |ranges|
      invariant result != [] && Normal(result, size) && result[|result| - 1].start <= ranges[i - 1].start
      invariant SameBytes(result, ranges[..i])
    {
      var r := ranges[i];
      assert Before(ranges[i - 1], r);
      JoinKeeps(result, r, size);
      SameBytesSnoc(result, ranges[..i], r);
      assert ranges[..i + 1] == ranges[..i] + [r];
      var last := result[|result| - 1];
      if r.start <= last.end {
        result := result[|result| - 1 := last.(end := Max(last.end, r.end))];
      } else {
        result := result + [r];
      }
    }
    assert ranges[..|ranges|] == ranges;
  }

  lemma {:induction false} RequestedEnd(parts: seq<seq<byte>>, size: int)
    ensures forall i :: 0 <= i < |Requested(parts, size)| ==> Requested(parts, size)[i].end <= size
  {
    hide ParseI64, Trim, AsI64;
    if parts != [] {
      RequestedEnd(parts[1..], size);
    }
  }

  lemma {:induction false} RequestedSnoc(parts: seq<seq<byte>>, part: seq<byte>, size: int)
    ensures Requested(parts + [part], size)
            == Requested(parts, size) + if ParsePart(part, size).Some? then [ParsePart(part, size).value] else []
    decreases |parts|
  {
    hide ParsePart;
    if parts == [] {
      assert parts + [part] == [part] && [part][1..] == [];
    } else {
      assert (parts + [part])[1..] == parts[1..] + [part];
      RequestedSnoc(parts[1..], part, size);
    }
  }

  /** What the header asks for, once it is well-formed. */
  function RangesOf(header: seq<byte>, size: int): seq<Range>
    requires Find(header, EQUALS) < |header|
  {
    Requested(Split(header[Find(header, EQUALS) + 1..], COMMA), size)
  }

  predicate TooManyParts(header: seq<byte>)
    requires Find(header, EQUALS) < |header|
  {
    |Split(header[Find(header, EQUALS) + 1..], COMMA)| > MAX_PARTS
  }

  /** The checks in their order: each is reached only if those before it pass. */
  function FirstError(header: seq<byte>, size: int): Option<RangeError> {
    var at := Find(header, EQUALS);
    if at == |header| then Some(NoUnit)
    else if Lowered(Trim(header[..at])) != Ascii("bytes") then Some(WrongUnit)
    else if TooManyParts(header) then None
    else
      var ranges := RangesOf(header, size);
      if ranges == [] then Some(NothingRequested)
      else if exists i :: 0 <= i < |ranges| && (ranges[i].start < 0 || ranges[i].start >= size) then
        Some(Unsatisfiable(size))
      else if exists i :: 0 <= i < |ranges| && ranges[i].start >= ranges[i].end then Some(StartNotLess)
      else None
  }

  /** On success: nothing for more than 100 parts; otherwise the one normal list of ranges
      that covers exactly the bytes of the valid parts. */
  method ParseRangeHeader(header: seq<byte>, size: int) returns (r: Result<seq<Range>, RangeError>)
    ensures FirstError(header, size) == if r.Err? then Some(r.error) else None
    ensures r.Ok? ==> (r.value == [] <==> TooManyParts(header))
    ensures r.Ok? && r.value != [] ==> Normal(r.value, size) && SameBytes(r.value, RangesOf(header, size))
  {
    hide Trim, Lowered, Ascii, ParsePart, Split, Covers, Sort;
    var at := Find(header, EQUALS);
    if at == |header| {
      return Err(NoUnit);
    }
    if Lowered(Trim(header[..at])) != Ascii("bytes") {
      return Err(WrongUnit);
    }
    var parts := Split(header[at + 1..], COMMA);
    if |parts| > MAX_PARTS {
      return Ok([]);
    }
    var ranges: seq<Range> := [];
    assert parts[..0] == [];
    for i := 0 to |parts|
      invariant ranges == Requested(parts[..i], size)
    {
      assert parts[..i + 1] == parts[..i] + [parts[i]];
      RequestedSnoc(parts[..i], parts[i], size);
      var range := ParsePart(parts[i], size);
      if range.Some? {
        ranges := ranges + [range.value];
      }
    }
    assert parts[..|parts|] == parts;
    if ranges == [] {
      return Err(NothingRequested);
    }
    if exists i :: 0 <= i < |ranges| && (ranges[i].start < 0 || ranges[i].start >= size) {
      return Err(Unsatisfiable(size));
    }
    if exists i :: 0 <= i < |ranges| && ranges[i].start >= ranges[i].end {
      return Err(StartNotLess);
    }
    RequestedEnd(parts, size);
    if |ranges| == 1 {
      return Ok(ranges);
    }
    var sorted := Sort(ranges);
    SortOrders(ranges);
    SameElements(sorted, ranges);
    forall i | 0 <= i < |sorted| ensures InFile(sorted[i], size) {
      assert sorted[i] in ranges;
    }
    SortedNotEmpty(ranges);
    var merged := MergeSorted(sorted, size);
    return Ok(merged);
  }

  lemma SortedNotEmpty(ranges: seq<Range>)
    requires ranges != []
    ensures Sort(ranges) != []
  {
    assert ranges[0] in multiset(ranges);
  }

  // ---------- the multi-range body ----------

  /** The header of one part. */
  function PartHeader(r: Range, boundary: seq<byte>, contentType: seq<byte>, size: int): seq<byte>
    requires InFile(r, size)
  {
    Ascii("--") + boundary + Ascii("\r\nContent-Type: ") + contentType + Ascii("\r\nContent-Range: bytes ")
    + Decimal(r.start) + Ascii("-") + Decimal(r.end - 1) + Ascii("/") + Decimal(size) + Ascii("\r\n\r\n")
  }

  /** The pieces sent for one part. */
  function Part(r: Range, boundary: seq<byte>, contentType: seq<byte>, file: seq<byte>): seq<seq<byte>>
    requires InFile(r, |file|)
  {
    [PartHeader(r, boundary, contentType, |file|), file[r.start..r.end], Ascii("\r\n")]
  }

  function Parts(ranges: seq<Range>, boundary: seq<byte>, contentType: seq<byte>, file: seq<byte>): seq<seq<byte>>
    requires forall i :: 0 <= i < |ranges| ==> InFile(ranges[i], |file|)
  {
    if ranges == [] then []
    else
      Parts(ranges[..|ranges| - 1], boundary, contentType, file)
      + Part(ranges[|ranges| - 1], boundary, contentType, file)
  }

  /** Everything sent as the body. */
  function Body(ranges: seq<Range>, boundary: seq<byte>, contentType: seq<byte>, file: seq<byte>): seq<seq<byte>>
    requires forall i :: 0 <= i < |ranges| ==> InFile(ranges[i], |file|)
  {
    Parts(ranges, boundary, contentType, file) + [Ascii("--") + boundary + Ascii("--")]
  }

  function Total(pieces: seq<seq<byte>>): nat {
    if pieces == [] then 0 else Total(pieces[..|pieces| - 1]) + |pieces[|pieces| - 1]|
  }

  lemma TotalSnoc(pieces: seq<seq<byte>>, piece: seq<byte>)
    ensures Total(pieces + [piece]) == Total(pieces) + |piece|
  {
    assert (pieces + [piece])[..|pieces|] == pieces;
  }

  lemma PartTotal(before: seq<seq<byte>>, r: Range, boundary: seq<byte>, contentType: seq<byte>, file: seq<byte>)
    requires InFile(r, |file|)
    ensures Total(before + Part(r, boundary, contentType, file))
            == Total(before) + 49 + |boundary| + |contentType| + |Decimal(|file|)| + |Decimal(r.start)|
                + |Decimal(r.end - 1)|
               + (r.end - r.start)
  {
    hide Decimal, Ascii, Total;
    var part := Part(r, boundary, contentType, file);
    TotalSnoc(before, part[0]);
    TotalSnoc(before + [part[0]], part[1]);
    TotalSnoc(before + [part[0]] + [part[1]], part[2]);
    assert before + part == before + [part[0]] + [part[1]] + [part[2]];
  }

  /** The announced length is the number of bytes of the body. */
  method MultipartContentLength(ranges: seq<Range>, boundary: seq<byte>, contentType: seq<byte>, file: seq<byte>)
    returns (total: nat)
    requires forall i :: 0 <= i < |ranges| ==> InFile(ranges[i], |file|)
    ensures total == Total(Body(ranges, boundary, contentType, file))
  {
    hide Decimal, Ascii, Part, Total;
    total := 4 + |boundary|;
    NothingTotal();
    for i := 0 to |ranges|
      invariant total == 4 + |boundary| + Total(Parts(ranges[..i], boundary, contentType, file))
    {
      var r := ranges[i];
      assert ranges[..i + 1][..i] == ranges[..i] && ranges[..i + 1][i] == r;
      PartTotal(Parts(ranges[..i], boundary, contentType, file), r, boundary, contentType, file);
      total := total + 49 + |boundary| + |contentType| + |Decimal(|file|)| + |Decimal(r.start)| + |Decimal(r.end - 1)|
        + (r.end - r.start);
    }
    assert ranges[..|ranges|] == ranges;
    TotalSnoc(Parts(ranges, boundary, contentType, file), Ascii("--") + boundary + Ascii("--"));
  }

  lemma NothingTotal()
    ensures Total([]) == 0
  {
  }

  /** One send; the transport takes `room` pieces and then fails. */
  method Send(sent: seq<seq<byte>>, piece: seq<byte>, room: nat) returns (ok: bool, after: seq<seq<byte>>)
    ensures ok <==> |sent| < room
    ensures after == if ok then sent + [piece] else sent
  {
    ok := |sent| < room;
    after := if ok then sent + [piece] else sent;
  }

  method SendPart(sent: seq<seq<byte>>, r: Range, boundary: seq<byte>, contentType: seq<byte>, file: seq<byte>,
                  room: nat)
    returns (ok: bool, after: seq<seq<byte>>)
    requires InFile(r, |file|)
    ensures ok <==> |sent| + 3 <= room
    ensures if ok then after == sent + Part(r, boundary, contentType, file)
            else sent <= after < sent + Part(r, boundary, contentType, file)
  {
    hide PartHeader, Ascii;
    ok, after := Send(sent, PartHeader(r, boundary, contentType, |file|), room);
    if ok {
      ok, after := Send(after, file[r.start..r.end], room);
    }
    if ok {
      ok, after := Send(after, Ascii("\r\n"), room);
    }
  }

  /** Sends the body piece by piece and stops at the first failure.  What was sent is a
      prefix of the body, and the whole body exactly when no send failed. */
  method WriteRanges(ranges: seq<Range>, boundary: seq<byte>, contentType: seq<byte>, file: seq<byte>, room: nat)
    returns (ok: bool, sent: seq<seq<byte>>)
    requires forall i :: 0 <= i < |ranges| ==> InFile(ranges[i], |file|)
    ensures sent <= Body(ranges, boundary, contentType, file)
    ensures ok <==> sent == Body(ranges, boundary, contentType, file)
    ensures ok <==> room >= |Body(ranges, boundary, contentType, file)|
  {
    hide Part, Ascii;
    sent, ok := [], true;
    ghost var body := Body(ranges, boundary, contentType, file);
    for i := 0 to |ranges|
      invariant ok && sent == Parts(ranges[..i], boundary, contentType, file) && |sent| <= room
      invariant sent <= body
    {
      assert ranges[..i + 1][..i] == ranges[..i] && ranges[..i + 1][i] == ranges[i];
      PartsArePrefix(ranges, i + 1, boundary, contentType, file);
      ghost var before := sent;
      ok, sent := SendPart(sent, ranges[i], boundary, contentType, file, room);
      if !ok {
        assert sent < before + Part(ranges[i], boundary, contentType, file);
        PartSize(ranges[i], boundary, contentType, file);
        return;
      }
      PartSize(ranges[i], boundary, contentType, file);
    }
    assert ranges[..|ranges|] == ranges;
    ok, sent := Send(sent, Ascii("--") + boundary + Ascii("--"), room);
  }

  lemma PartSize(r: Range, boundary: seq<byte>, contentType: seq<byte>, file: seq<byte>)
    requires InFile(r, |file|)
    ensures |Part(r, boundary, contentType, file)| == 3
  {
  }

  lemma {:induction false} PartsArePrefix(ranges: seq<Range>, i: nat, boundary: seq<byte>, contentType: seq<byte>,
                                          file: seq<byte>)
    requires i <= |ranges| && forall k :: 0 <= k < |ranges| ==> InFile(ranges[k], |file|)
    ensures Parts(ranges[..i], boundary, contentType, file) <= Parts(ranges, boundary, contentType, file)
    decreases |ranges| - i
  {
    hide Part;
    if i == |ranges| {
      assert ranges[..i] == ranges;
    } else {
      PartsArePrefix(ranges, i + 1, boundary, contentType, file);
      assert ranges[..i + 1][..i] == ranges[..i];
    }
  }
}
