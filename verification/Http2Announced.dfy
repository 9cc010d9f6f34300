/** Which header lists announce a request, and which request that is, said without the scan
    (RFC 7540 section 8.1.2; src/fastapi_mojo_rs/src/bridge/http2.rs). */
module Http2Announced {
  import opened Wrappers
  import opened Bits
  import opened AsciiText
  import opened Decimals
  import opened Texts
  import opened Hpack
  import opened Http2Requests

  predicate PlainText(s: seq<byte>) {
    0 !in s && 10 !in s && 13 !in s
  }

  function PseudoNames(): set<seq<byte>> {
    {Ascii(":method"), Ascii(":path"), Ascii(":authority"), Ascii(":scheme")}
  }

  /** Headers that only make sense for one connection. */
  function HopNames(): set<seq<byte>> {
    {Ascii("connection"), Ascii("keep-alive"), Ascii("proxy-connection"), Ascii("te"), Ascii("transfer-encoding"),
     Ascii("upgrade")}
  }

  predicate PseudoField(f: Field) {
    f.name in PseudoNames() && PlainText(f.value) && |f.value| <= 4096
  }

  predicate RegularField(f: Field) {
    && f.name != [] && f.name[0] != 58 && PlainText(f.name) && f.name !in HopNames()
    && (forall i :: 0 <= i < |f.name| ==> !(65 <= f.name[i] <= 90))
    && PlainText(f.value) && |f.value| <= 4096
  }

  /** The number of pseudo-headers at the front. */
  function Leading(fields: seq<Field>): (k: nat)
    ensures k <= |fields|
  {
    if fields != [] && fields[0].name != [] && fields[0].name[0] == 58 then 1 + Leading(fields[1..]) else 0
  }

  /** The value of the last field with the name. */
  function ValueOf(fields: seq<Field>, name: seq<byte>): seq<byte> {
    if fields == [] then []
    else if fields[|fields| - 1].name == name then fields[|fields| - 1].value
    else ValueOf(fields[..|fields| - 1], name)
  }

  /** Pseudo-headers come first, each at most once with a value. */
  predicate GoodFields(fields: seq<Field>, k: nat)
    requires k <= |fields|
  {
    && (forall i :: 0 <= i < k ==> PseudoField(fields[i]))
    && (forall i :: k <= i < |fields| ==> RegularField(fields[i]))
    && (forall i, j :: 0 <= i < j < k && fields[i].name == fields[j].name ==> fields[i].value == [])
  }

  /** The request the fields announce on a stream. */
  predicate Announces(stream: nat, fields: seq<Field>, k: nat, r: Request)
    requires k <= |fields|
  {
    var target := ValueOf(fields[..k], Ascii(":path"));
    && GoodFields(fields, k)
    && ValueOf(fields[..k], Ascii(":scheme")) != []
    && |target| <= 1023 && r.path != [] && r.path[0] == 47 && 63 !in r.path
    && (target == r.path + [63] + r.query || (target == r.path && r.query == []))
    && r.method_ == ValueOf(fields[..k], Ascii(":method")) && |r.method_| <= 15
    && r.authority == ValueOf(fields[..k], Ascii(":authority"))
    && r.streamId == stream && r.headers == fields[k..] && r.body == []
  }

  // ---------- the scan ----------

  lemma {:induction false} AddHeadersSnoc(h: Head, fields: seq<Field>, last: Field)
    ensures AddHeaders(h, fields + [last])
            == match AddHeaders(h, fields)
               case Err(e) => Err(e)
               case Ok(h') => AddHeader(h', last)
    decreases |fields|
  {
    hide AddHeader;
    if fields == [] {
      assert fields + [last] == [last] && [last][1..] == [];
    } else {
      assert (fields + [last])[1..] == fields[1..] + [last];
      match AddHeader(h, fields[0])
      case Err(_) =>
      case Ok(h') => AddHeadersSnoc(h', fields[1..], last);
    }
  }

  function Empty(): Head {
    Head([], [], [], [], [])
  }

  function HeadOf(fields: seq<Field>, k: nat): Head
    requires k <= |fields|
  {
    var pseudo := fields[..k];
    Head(ValueOf(pseudo, Ascii(":method")), ValueOf(pseudo, Ascii(":path")), ValueOf(pseudo, Ascii(":authority")),
         ValueOf(pseudo, Ascii(":scheme")), fields[k..])
  }

  lemma {:induction false} LeadingSnoc(fields: seq<Field>, last: Field)
    ensures Leading(fields + [last])
            == Leading(fields)
               + if Leading(fields) == |fields| && last.name != [] && last.name[0] == 58 then 1 else 0
    decreases |fields|
  {
    if fields == [] {
      assert fields + [last] == [last] && [last][1..] == [];
    } else {
      assert (fields + [last])[1..] == fields[1..] + [last];
      LeadingSnoc(fields[1..], last);
    }
  }

  lemma {:induction false} LeadingIs(fields: seq<Field>, k: nat)
    requires k <= |fields|
    requires forall i :: 0 <= i < k ==> fields[i].name != [] && fields[i].name[0] == 58
    requires k < |fields| ==> fields[k].name == [] || fields[k].name[0] != 58
    ensures Leading(fields) == k
    decreases k
  {
    if k > 0 {
      LeadingIs(fields[1..], k - 1);
    }
  }

  /** Among good pseudo-headers, the last value is empty exactly if all are. */
  lemma {:induction false} EmptyValues(fields: seq<Field>, name: seq<byte>)
    requires forall i, j :: 0 <= i < j < |fields| && fields[i].name == fields[j].name ==> fields[i].value == []
    ensures ValueOf(fields, name) == []
            <==> forall i :: 0 <= i < |fields| && fields[i].name == name ==> fields[i].value == []
    decreases |fields|
  {
    if fields != [] {
      var front := fields[..|fields| - 1];
      EmptyValues(front, name);
      assert fields == front + [fields[|fields| - 1]];
    }
  }

  lemma SameText(s: seq<byte>)
    ensures CleanText(s) <==> PlainText(s)
  {
  }

  lemma SameNames(name: seq<byte>)
    ensures ConnectionSpecific(name) <==> name in HopNames()
  {
    hide Ascii;
  }

  lemma OnePseudo(h: Head, f: Field)
    requires f.name != [] && f.name[0] == 58
    ensures AddHeader(h, f).Ok? <==>
            && PseudoField(f) && h.headers == []
            && (f.name == Ascii(":method") ==> h.method_ == []) && (f.name == Ascii(":path") ==> h.path == [])
            && (f.name == Ascii(":authority") ==> h.authority == []) && (f.name == Ascii(":scheme") ==> h.scheme == [])
    ensures AddHeader(h, f).Ok? ==>
              var h' := AddHeader(h, f).value;
              && h'.method_ == (if f.name == Ascii(":method") then f.value else h.method_)
              && h'.path == (if f.name == Ascii(":path") then f.value else h.path)
              && h'.authority == (if f.name == Ascii(":authority") then f.value else h.authority)
              && h'.scheme == (if f.name == Ascii(":scheme") then f.value else h.scheme)
              && h'.headers == h.headers
  {
    hide Ascii, CleanText, PlainText;
    DifferentNames();
    SameText(f.name);
    SameText(f.value);
  }

  lemma DifferentNames()
    ensures Ascii(":method") != Ascii(":path") && Ascii(":method") != Ascii(":authority")
    ensures Ascii(":method") != Ascii(":scheme") && Ascii(":path") != Ascii(":authority")
    ensures Ascii(":path") != Ascii(":scheme") && Ascii(":authority") != Ascii(":scheme")
    ensures forall name :: name in PseudoNames() ==> PlainText(name)
  {
    assert Ascii(":method")[1] == 'm' as byte && Ascii(":scheme")[1] == 's' as byte;
  }

  lemma OneRegular(h: Head, f: Field)
    requires f.name == [] || f.name[0] != 58
    ensures AddHeader(h, f) == if RegularField(f) then Ok(h.(headers := h.headers + [f])) else Err(InvalidHeader)
  {
    hide Ascii, CleanText, PlainText, ConnectionSpecific, HopNames;
    SameText(f.name);
    SameText(f.value);
    SameNames(f.name);
  }

  /** The scan accepts exactly the good lists, and then has every value. */
  lemma {:induction false} ScanMeans(fields: seq<Field>)
    ensures var k := Leading(fields);
            AddHeaders(Empty(), fields).Ok? <==> GoodFields(fields, k)
    ensures AddHeaders(Empty(), fields).Ok? ==> AddHeaders(Empty(), fields) == Ok(HeadOf(fields, Leading(fields)))
    decreases |fields|
  {
    hide AddHeaders, Ascii, PseudoField, RegularField, AddHeader, Leading;
    if fields == [] {
      ScanNothing();
    } else {
      var front, last := fields[..|fields| - 1], fields[|fields| - 1];
      var k := Leading(front);
      assert fields == front + [last];
      ScanMeans(front);
      AddHeadersSnoc(Empty(), front, last);
      LeadingSnoc(front, last);
      GoodFront(front, last);
      if last.name == [] || last.name[0] != 58 {
        ScanRegular(front, last);
      } else if GoodFields(front, k) {
        ScanPseudo(front, last);
      }
    }
  }

  lemma GoodFront(front: seq<Field>, last: Field)
    ensures var k := Leading(front + [last]);
            GoodFields(front + [last], k) ==> GoodFields(front, if k <= |front| then k else |front|)
  {
    hide PseudoField, RegularField, Leading;
    assert forall i :: 0 <= i < |front| ==> (front + [last])[i] == front[i];
  }

  lemma ScanNothing()
    ensures Leading([]) == 0 && AddHeaders(Empty(), []) == Ok(HeadOf([], 0))
  {
  }

  lemma ScanRegular(front: seq<Field>, last: Field)
    requires last.name == [] || last.name[0] != 58
    ensures var k := Leading(front);
            && (GoodFields(front + [last], k) <==> GoodFields(front, k) && RegularField(last))
            && HeadOf(front + [last], k) == HeadOf(front, k).(headers := HeadOf(front, k).headers + [last])
            && AddHeader(HeadOf(front, k), last)
               == if RegularField(last) then Ok(HeadOf(front + [last], k)) else Err(InvalidHeader)
  {
    hide Ascii, PseudoField, RegularField, AddHeader, Leading, ValueOf;
    var k, fields := Leading(front), front + [last];
    assert fields[..k] == front[..k] && fields[k..] == front[k..] + [last];
    assert forall i :: 0 <= i < |front| ==> fields[i] == front[i];
    assert fields[|front|] == last;
    OneRegular(HeadOf(front, k), last);
  }

  lemma ScanPseudo(front: seq<Field>, last: Field)
    requires last.name != [] && last.name[0] == 58
    requires GoodFields(front, Leading(front))
    ensures var k, fields := Leading(front), front + [last];
            if k == |front| then
              && (GoodFields(fields, k + 1) <==> AddHeader(HeadOf(front, k), last).Ok?)
              && (AddHeader(HeadOf(front, k), last).Ok? ==>
                    AddHeader(HeadOf(front, k), last) == Ok(HeadOf(fields, k + 1)))
            else !GoodFields(fields, k) && AddHeader(HeadOf(front, k), last).Err?
  {
    hide Ascii, PseudoField, AddHeader, Leading, ValueOf, GoodFields, PseudoNames;
    var k, fields := Leading(front), front + [last];
    OnePseudo(HeadOf(front, k), last);
    if k == |front| {
      assert front[..k] == front && fields[..k + 1] == fields;
      assert front[k..] == [] && fields[k + 1..] == [];
      LastIsFree(front, last);
      ValueSnoc(front, last, Ascii(":method"));
      ValueSnoc(front, last, Ascii(":path"));
      ValueSnoc(front, last, Ascii(":authority"));
      ValueSnoc(front, last, Ascii(":scheme"));
      if PseudoField(last) {
        KnownName(last);
      }
    } else {
      LatePseudo(front, last);
      assert front[k..] != [];
    }
  }

  lemma KnownName(f: Field)
    requires PseudoField(f)
    ensures f.name == Ascii(":method") || f.name == Ascii(":path") || f.name == Ascii(":authority")
            || f.name == Ascii(":scheme")
  {
    hide Ascii;
  }

  lemma LatePseudo(front: seq<Field>, last: Field)
    requires last.name != [] && last.name[0] == 58 && Leading(front) < |front|
    ensures !GoodFields(front + [last], Leading(front))
  {
    hide PseudoField, Leading;
    assert (front + [last])[|front|] == last;
  }

  lemma ValueSnoc(front: seq<Field>, last: Field, name: seq<byte>)
    ensures ValueOf(front + [last], name) == if last.name == name then last.value else ValueOf(front, name)
  {
    assert (front + [last])[..|front|] == front;
  }

  lemma LastIsFree(front: seq<Field>, last: Field)
    requires GoodFields(front, |front|)
    ensures GoodFields(front + [last], |front| + 1) <==> PseudoField(last) && ValueOf(front, last.name) == []
  {
    hide PseudoField;
    var fields := front + [last];
    assert fields[..|fields| - 1] == front;
    assert forall i :: 0 <= i < |front| ==> fields[i] == front[i];
    assert fields[|front|] == last;
    EmptyValues(front, last.name);
  }

  // ---------- the request ----------

  /** The target is the path, or the path, a question mark and the query. */
  lemma TargetSplits(target: seq<byte>, path: seq<byte>, query: seq<byte>)
    ensures var q := Find(target, QUESTION_MARK);
            path == target[..q] && query == (if q < |target| then target[q + 1..] else [])
            <==> 63 !in path && (target == path + [63] + query || (target == path && query == []))
  {
    hide Find;
    var q := Find(target, QUESTION_MARK);
    if 63 !in path && (target == path + [63] + query || (target == path && query == [])) {
      SplitsBack(target, path, query);
    }
    if path == target[..q] && query == (if q < |target| then target[q + 1..] else []) {
      SplitsThere(target);
    }
  }

  lemma SplitsThere(target: seq<byte>)
    ensures var q := Find(target, QUESTION_MARK);
            63 !in target[..q] && target == if q < |target| then target[..q] + [63] + target[q + 1..] else target[..q]
  {
    var q := Find(target, QUESTION_MARK);
    hide Find;
    assert forall i :: 0 <= i < q ==> target[..q][i] != 63;
    if q < |target| {
      JoinAt(target, q);
    } else {
      assert target[..q] == target;
    }
  }

  lemma JoinAt(s: seq<byte>, q: nat)
    requires q < |s|
    ensures s == s[..q] + [s[q]] + s[q + 1..]
  {
  }

  lemma SplitsBack(target: seq<byte>, path: seq<byte>, query: seq<byte>)
    requires 63 !in path && (target == path + [63] + query || (target == path && query == []))
    ensures var q := Find(target, QUESTION_MARK);
            path == target[..q] && query == (if q < |target| then target[q + 1..] else [])
  {
    hide Find;
    if target == path + [63] + query {
      FindAfter(path, 63, [63] + query);
      CutBack(path, query);
    } else {
      FindAfter(path, 63, []);
      assert path + [] == target;
    }
  }

  lemma CutBack(path: seq<byte>, query: seq<byte>)
    ensures var s := path + [63] + query;
            s == path + ([63] + query) && s[..|path|] == path && s[|path| + 1..] == query
  {
  }

  lemma MakeMeans(stream: nat, fields: seq<Field>, k: nat, r: Request)
    requires k <= |fields| && GoodFields(fields, k)
    ensures MakeRequest(stream, HeadOf(fields, k)) == Ok(r) <==> Announces(stream, fields, k, r)
  {
    hide Ascii, ValueOf, GoodFields;
    var target := ValueOf(fields[..k], Ascii(":path"));
    ShortAuthority(fields, k);
    TargetSplits(target, r.path, r.query);
    var q := Find(target, QUESTION_MARK);
    if target != [] && target[0] == 47 {
      assert target[..q] != [] && target[..q][0] == 47;
    }
    if Announces(stream, fields, k, r) {
      assert target[0] == r.path[0];
    }
  }

  lemma {:induction false} ValuesAreShort(fields: seq<Field>, name: seq<byte>)
    requires forall i :: 0 <= i < |fields| ==> |fields[i].value| <= 4096
    ensures |ValueOf(fields, name)| <= 4096
    decreases |fields|
  {
    if fields != [] {
      ValuesAreShort(fields[..|fields| - 1], name);
    }
  }

  lemma ShortAuthority(fields: seq<Field>, k: nat)
    requires k <= |fields| && GoodFields(fields, k)
    ensures |ValueOf(fields[..k], Ascii(":authority"))| <= 4096
  {
    ValuesAreShort(fields[..k], Ascii(":authority"));
  }

  lemma LeadingOfGood(fields: seq<Field>, k: nat)
    requires k <= |fields| && GoodFields(fields, k)
    ensures Leading(fields) == k
  {
    LeadingIs(fields, k);
  }

  /** The server builds a request from a header list exactly if the list announces it. */
  lemma RequestMeans(stream: nat, fields: seq<Field>, r: Request)
    ensures (AddHeaders(Empty(), fields).Ok? && MakeRequest(stream, AddHeaders(Empty(), fields).value) == Ok(r))
            <==> exists k :: 0 <= k <= |fields| && Announces(stream, fields, k, r)
  {
    hide AddHeaders, MakeRequest, GoodFields, ValueOf, Ascii;
    var k := Leading(fields);
    ScanMeans(fields);
    if GoodFields(fields, k) {
      MakeMeans(stream, fields, k, r);
    }
    forall m | 0 <= m <= |fields| && Announces(stream, fields, m, r) ensures m == k {
      LeadingOfGood(fields, m);
    }
  }

  // ---------- the announced length ----------

  /** A list without a method announces a request all the same, where section 8.1.2.3 of
      RFC 7540 calls it malformed. */
  lemma MethodMayBeMissing(stream: nat)
    ensures var fields := [Field(Ascii(":scheme"), Ascii("http")), Field(Ascii(":path"), Ascii("/"))];
            AddHeaders(Empty(), fields).Ok?
            && MakeRequest(stream, AddHeaders(Empty(), fields).value)
               == Ok(Request(stream, [], Ascii("/"), [], [], [], []))
  {
    var scheme, path := Field(Ascii(":scheme"), Ascii("http")), Field(Ascii(":path"), Ascii("/"));
    var fields := [scheme, path];
    var r := Request(stream, [], Ascii("/"), [], [], [], []);
    TwoNames();
    hide Ascii;
    assert fields[..2] == fields && fields[2..] == [] && fields[..1] == [scheme] && [scheme][..0] == [];
    assert ValueOf([], Ascii(":method")) == [] && ValueOf([], Ascii(":authority")) == [];
    assert ValueOf([scheme], Ascii(":scheme")) == Ascii("http");
    assert ValueOf([scheme], Ascii(":method")) == [] && ValueOf([scheme], Ascii(":authority")) == [];
    assert Announces(stream, fields, 2, r);
    RequestMeans(stream, fields, r);
  }

  lemma TwoNames()
    ensures Ascii(":scheme") != Ascii(":path")
    ensures Ascii(":method") !in {Ascii(":scheme"), Ascii(":path")}
    ensures Ascii(":authority") !in {Ascii(":scheme"), Ascii(":path")}
    ensures Ascii("/") == [47] && PlainText(Ascii("http")) && |Ascii("http")| == 4
  {
    assert Ascii(":scheme")[1] == 115 && Ascii(":path")[1] == 112;
    assert Ascii(":method")[1] == 109 && Ascii(":authority")[1] == 97;
  }

  /** The first content-length header. */
  predicate LengthField(headers: seq<Field>, i: nat) {
    && i < |headers| && headers[i].name == Ascii("content-length")
    && forall j :: 0 <= j < i ==> headers[j].name != Ascii("content-length")
  }

  lemma LowerAlready(name: seq<byte>)
    requires forall i :: 0 <= i < |name| ==> !(65 <= name[i] <= 90)
    ensures Lowered(name) == name
  {
  }

  lemma LengthNameIsLower()
    ensures forall i :: 0 <= i < |Ascii("content-length")| ==> !(65 <= Ascii("content-length")[i] <= 90)
  {
  }

  lemma {:induction false} FirstLength(headers: seq<Field>)
    requires forall i :: 0 <= i < |headers| ==> RegularField(headers[i])
    ensures var v := FindHeader(headers, Ascii("content-length"));
            if v.None? then forall i :: 0 <= i < |headers| ==> headers[i].name != Ascii("content-length")
            else exists i: nat :: LengthField(headers, i) && v.value == headers[i].value
    decreases |headers|
  {
    hide Ascii, Lowered;
    LengthNameIsLower();
    LowerAlready(Ascii("content-length"));
    if headers != [] {
      LowerAlready(headers[0].name);
      if headers[0].name == Ascii("content-length") {
        assert LengthField(headers, 0);
      } else {
        var rest := headers[1..];
        assert forall i :: 0 < i < |headers| ==> headers[i] == rest[i - 1];
        FirstLength(rest);
        if FindHeader(rest, Ascii("content-length")).Some? {
          var i: nat :| LengthField(rest, i)
                        && FindHeader(rest, Ascii("content-length")).value == rest[i].value;
          assert LengthField(headers, i + 1);
        }
      }
    }
  }

  /** A request announces a body length exactly if its first content-length header is a
      decimal number below 2^64, and none exactly if it has no such header. */
  lemma ContentLengthMeans(r: Request, n: nat)
    requires forall i :: 0 <= i < |r.headers| ==> RegularField(r.headers[i])
    ensures ContentLength(r) == Ok(None)
            <==> forall i :: 0 <= i < |r.headers| ==> r.headers[i].name != Ascii("content-length")
    ensures ContentLength(r) == Ok(Some(n))
            <==> exists i: nat :: LengthField(r.headers, i) && r.headers[i].value != [] && AllDigits(r.headers[i].value)
                                  && DecimalValue(r.headers[i].value) == n && n < 0x1_0000_0000_0000_0000
  {
    hide Ascii, DecimalValue, RegularField;
    FirstLength(r.headers);
  }
}
