/** Patterns as they are written: a syntax tree, its text, and that a pattern compiles exactly
    if it is such a text (src/fastapi_mojo_rs/src/bridge/regex.rs). */
module RegexWritten {
  import opened Wrappers
  import opened Bits
  import opened Decimals
  import opened RegexMeaning
  import opened RegexParser

  // ---------- syntax ----------

  /** How often an atom may occur.  Numbers are digit strings; the last two forms lack their
      closing brace, which the parser forgives at the very end of a pattern. */
  datatype Quant =
    | Once
    | Star
    | Plus
    | Maybe
    | Exactly(n: seq<byte>)
    | AtLeast(n: seq<byte>)
    | FromTo(n: seq<byte>, m: seq<byte>)
    | OpenExactly(n: seq<byte>)
    | OpenFromTo(n: seq<byte>, m: seq<byte>)

  /** A member of a class: a character, a range, an escape, or a range whose end is an escape
      (of which the source keeps only the escape). */
  datatype Member =
    | One(c: byte)
    | Range(lo: byte, hi: byte)
    | Escaped(e: byte)
    | Dropped(lo: byte, e: byte)

  datatype Atom =
    | Start
    | End
    | Dot
    | Boundary
    | Plain(c: byte)
    | Escape(e: byte)
    | Brackets(negated: bool, members: seq<Member>)
    | Group(alts: seq<Branch>)

  datatype Item = Item(atom: Atom, quant: Quant)

  /** One of the alternatives between bars. */
  datatype Branch = Branch(items: seq<Item>)

  // ---------- text ----------

  function QuantText(q: Quant): seq<byte> {
    match q
    case Once => []
    case Star => [42]
    case Plus => [43]
    case Maybe => [63]
    case _ => [123] + Inside(q)
  }

  /** What follows the opening brace. */
  function Inside(q: Quant): seq<byte> {
    match q
    case Exactly(n) => n + [125]
    case AtLeast(n) => n + [44, 125]
    case FromTo(n, m) => n + ([44] + (m + [125]))
    case OpenExactly(n) => n
    case OpenFromTo(n, m) => n + ([44] + m)
    case _ => []
  }

  predicate HasBraces(q: Quant) {
    !q.Once? && !q.Star? && !q.Plus? && !q.Maybe?
  }

  function MemberText(m: Member): seq<byte> {
    match m
    case One(c) => [c]
    case Range(lo, hi) => [lo, 45, hi]
    case Escaped(e) => [92, e]
    case Dropped(lo, e) => [lo, 45, 92, e]
  }

  function MembersText(ms: seq<Member>): seq<byte> {
    if ms == [] then [] else MemberText(ms[0]) + MembersText(ms[1..])
  }

  function AtomText(a: Atom): seq<byte> {
    match a
    case Start => [94]
    case End => [36]
    case Dot => [46]
    case Boundary => [92, 98]
    case Plain(c) => [c]
    case Escape(e) => [92, e]
    case Brackets(negated, members) => [91] + ((if negated then [94] else []) + (MembersText(members) + [93]))
    case Group(alts) => [40] + (AltsText(alts) + [41])
  }

  function ItemText(it: Item): seq<byte> {
    AtomText(it.atom) + QuantText(it.quant)
  }

  function ItemsText(items: seq<Item>): seq<byte> {
    if items == [] then [] else ItemText(items[0]) + ItemsText(items[1..])
  }

  function AltsText(alts: seq<Branch>): seq<byte> {
    if alts == [] then []
    else if |alts| == 1 then BranchText(alts[0])
    else BranchText(alts[0]) + ([124] + AltsText(alts[1..]))
  }

  function BranchText(b: Branch): seq<byte> {
    ItemsText(b.items)
  }

  // ---------- which texts can be read ----------

  /** A number the brace form can hold. */
  predicate GoodNumber(n: seq<byte>) {
    n != [] && AllDigits(n) && DecimalValue(n) <= UNBOUNDED
  }

  predicate IsOpen(q: Quant) {
    q.OpenExactly? || q.OpenFromTo?
  }

  /** The quantifier, with what follows it. */
  predicate GoodQuant(q: Quant, after: seq<byte>) {
    match q
    case Once => NoQuantifier(after)
    case Star => true
    case Plus => true
    case Maybe => true
    case Exactly(n) => GoodNumber(n)
    case AtLeast(n) => GoodNumber(n)
    case FromTo(n, m) => GoodNumber(n) && GoodNumber(m) && DecimalValue(n) <= DecimalValue(m)
    case OpenExactly(n) => GoodNumber(n) && after == []
    case OpenFromTo(n, m) => GoodNumber(n) && GoodNumber(m) && DecimalValue(n) <= DecimalValue(m) && after == []
  }

  /** A dash behind a character makes a range, unless it is the last member. */
  predicate DashAhead(after: seq<byte>) {
    Starts(after, DASH) && !Starts(after[1..], RBRACKET)
  }

  predicate GoodMember(m: Member, after: seq<byte>) {
    match m
    case One(c) => c != 92 && c != 93 && !DashAhead(after)
    case Range(lo, hi) => lo !in {92, 93} && hi !in {92, 93} && lo <= hi
    case Escaped(e) => e != 98
    case Dropped(lo, e) => lo !in {92, 93} && e != 98
  }

  predicate GoodMembers(ms: seq<Member>, after: seq<byte>) {
    ms == [] || (GoodMember(ms[0], MembersText(ms[1..]) + after) && GoodMembers(ms[1..], after))
  }

  predicate GoodAtom(a: Atom) {
    match a
    case Plain(c) => c !in {94, 36, 46, 40, 41, 91, 92, 123, 124}
    case Escape(e) => e != 98
    case Brackets(negated, members) =>
      && (negated || (members != [] && MembersText(members)[..1] != [94]))
      && GoodMembers(members, [93])
    case Group(alts) => alts != [] && GoodAlts(alts, [41])
    case _ => true
  }

  predicate GoodItem(it: Item, after: seq<byte>) {
    GoodAtom(it.atom) && GoodQuant(it.quant, after)
  }

  predicate GoodItems(items: seq<Item>, after: seq<byte>) {
    items == [] || (GoodItem(items[0], ItemsText(items[1..]) + after) && GoodItems(items[1..], after))
  }

  predicate GoodAlts(alts: seq<Branch>, after: seq<byte>) {
    if alts == [] then true
    else if |alts| == 1 then GoodBranch(alts[0], after)
    else GoodBranch(alts[0], [124] + (AltsText(alts[1..]) + after)) && GoodAlts(alts[1..], after)
  }

  predicate GoodBranch(b: Branch, after: seq<byte>) {
    GoodItems(b.items, after)
  }

  // ---------- the node of a syntax tree ----------

  function QuantNode(node: Node, q: Quant): Node {
    match q
    case Once => node
    case Star => Repeat(node, 0, UNBOUNDED)
    case Plus => Repeat(node, 1, UNBOUNDED)
    case Maybe => Repeat(node, 0, 1)
    case Exactly(n) => if AllDigits(n) then Repeat(node, DecimalValue(n), DecimalValue(n)) else node
    case AtLeast(n) => if AllDigits(n) then Repeat(node, DecimalValue(n), UNBOUNDED) else node
    case FromTo(n, m) => if AllDigits(n) && AllDigits(m) then Repeat(node, DecimalValue(n), DecimalValue(m)) else node
    case OpenExactly(n) => if AllDigits(n) then Repeat(node, DecimalValue(n), DecimalValue(n)) else node
    case OpenFromTo(n, m) =>
      if AllDigits(n) && AllDigits(m) then Repeat(node, DecimalValue(n), DecimalValue(m)) else node
  }

  function EscapeSet(e: byte): set<nat> {
    if ClassEscape(e).Some? then ClassEscape(e).value
    else if CharEscape(e).Ok? then {CharEscape(e).value}
    else {}
  }

  function MemberSet(m: Member): set<nat> {
    match m
    case One(c) => {c as nat}
    case Range(lo, hi) => Span(lo, hi)
    case Escaped(e) => EscapeSet(e)
    case Dropped(_, e) => EscapeSet(e)
  }

  function MembersSet(ms: seq<Member>, got: set<nat>): set<nat> {
    if ms == [] then got else MembersSet(ms[1..], got + MemberSet(ms[0]))
  }

  function AtomNode(a: Atom): Node {
    match a
    case Start => AnchorStart
    case End => AnchorEnd
    case Dot => CharSet(DotSet(), false)
    case Boundary => WordBoundary
    case Plain(c) => CharSet({c as nat}, false)
    case Escape(e) => CharSet(EscapeSet(e), false)
    case Brackets(negated, members) => CharSet(MembersSet(members, {}), negated)
    case Group(alts) => if alts == [] then Empty else Choice(AltNodes(alts))
  }

  function ItemNodes(items: seq<Item>): (nodes: seq<Node>)
    ensures |nodes| == |items|
  {
    if items == [] then [] else [ItemNode(items[0])] + ItemNodes(items[1..])
  }

  function ItemNode(it: Item): Node {
    QuantNode(AtomNode(it.atom), it.quant)
  }

  function AltNodes(alts: seq<Branch>): (nodes: seq<Node>)
    ensures |nodes| == |alts|
  {
    if alts == [] then [] else [BranchNode(alts[0])] + AltNodes(alts[1..])
  }

  function BranchNode(b: Branch): Node {
    Sequence(ItemNodes(b.items))
  }

  // ---------- quantifiers, read and written ----------

  lemma {:induction false} RunOf(n: seq<byte>, tail: seq<byte>)
    requires AllDigits(n) && !StartsWithDigit(tail)
    ensures DigitRun(n + tail) == |n|
    decreases |n|
  {
    if n == [] {
      assert n + tail == tail;
    } else {
      assert (n + tail)[1..] == n[1..] + tail;
      RunOf(n[1..], tail);
    }
  }

  lemma NumberReads(n: seq<byte>, tail: seq<byte>, nums: seq<nat>)
    requires GoodNumber(n) && !StartsWithDigit(tail)
    ensures ParseBraces(n + tail, nums) == ParseBraces(tail, nums + [DecimalValue(n)])
  {
    hide DecimalValue;
    RunOf(n, tail);
    assert (n + tail)[..|n|] == n && (n + tail)[|n|..] == tail;
  }

  lemma OneBrace(n: nat, after: seq<byte>)
    ensures ParseBraces([125] + after, [n]) == Ok(Bounds(n, n, after, false))
    ensures ParseBraces([44, 125] + after, [n]) == Ok(Bounds(n, UNBOUNDED, after, false))
    ensures ParseBraces([], [n]) == Ok(Bounds(n, n, [], true))
  {
    assert ([125] + after)[1..] == after;
    assert ([44, 125] + after)[1..] == [125] + after && ([44, 125] + after)[2..] == after;
  }

  lemma TwoBraces(n: nat, m: nat, after: seq<byte>)
    requires n <= m
    ensures ParseBraces([125] + after, [n, m]) == Ok(Bounds(n, m, after, false))
    ensures ParseBraces([], [n, m]) == Ok(Bounds(n, m, [], true))
  {
    assert ([125] + after)[1..] == after;
  }

  lemma CommaReads(n: nat, m: seq<byte>, tail: seq<byte>)
    requires GoodNumber(m) && !StartsWithDigit(tail)
    ensures ParseBraces([44] + (m + tail), [n]) == ParseBraces(tail, [n, DecimalValue(m)])
  {
    hide DecimalValue;
    assert ([44] + (m + tail))[1..] == m + tail;
    NumberReads(m, tail, [n]);
    assert [n] + [DecimalValue(m)] == [n, DecimalValue(m)];
  }

  /** The bounds are those of the quantifier. */
  ghost predicate SameBounds(b: Bounds, q: Quant) {
    forall node :: Repeat(node, b.min, b.max) == QuantNode(node, q)
  }

  lemma ExactlyReads(n: seq<byte>, after: seq<byte>)
    requires GoodNumber(n)
    ensures ParseBraces(n + ([125] + after), []) == Ok(Bounds(DecimalValue(n), DecimalValue(n), after, false))
    ensures ParseBraces(n + ([44, 125] + after), []) == Ok(Bounds(DecimalValue(n), UNBOUNDED, after, false))
    ensures ParseBraces(n, []) == Ok(Bounds(DecimalValue(n), DecimalValue(n), [], true))
  {
    hide DecimalValue, ParseBraces;
    NumberReads(n, [125] + after, []);
    NumberReads(n, [44, 125] + after, []);
    NumberReads(n, [], []);
    assert n + [] == n;
    OneBrace(DecimalValue(n), after);
    assert [] + [DecimalValue(n)] == [DecimalValue(n)];
  }

  lemma PairReads(n: seq<byte>, m: seq<byte>, after: seq<byte>)
    requires GoodNumber(n) && GoodNumber(m) && DecimalValue(n) <= DecimalValue(m)
    ensures ParseBraces(n + ([44] + (m + ([125] + after))), [])
            == Ok(Bounds(DecimalValue(n), DecimalValue(m), after, false))
    ensures ParseBraces(n + ([44] + m), []) == Ok(Bounds(DecimalValue(n), DecimalValue(m), [], true))
  {
    hide DecimalValue, ParseBraces;
    NumberReads(n, [44] + (m + ([125] + after)), []);
    NumberReads(n, [44] + (m + []), []);
    assert m + [] == m;
    assert [] + [DecimalValue(n)] == [DecimalValue(n)];
    CommaReads(DecimalValue(n), m, [125] + after);
    CommaReads(DecimalValue(n), m, []);
    TwoBraces(DecimalValue(n), DecimalValue(m), after);
  }

  lemma Joined3(a: seq<byte>, b: seq<byte>, c: seq<byte>)
    ensures (a + b) + c == a + (b + c)
  {
  }

  lemma BracesRead(q: Quant, after: seq<byte>)
    requires GoodQuant(q, after) && HasBraces(q)
    ensures var b := ParseBraces(Inside(q) + after, []);
            b.Ok? && b.value.rest == after && b.value.open == IsOpen(q) && SameBounds(b.value, q)
  {
    hide DecimalValue, ParseBraces;
    match q
    case Exactly(n) =>
      Joined3(n, [125], after);
      ExactlyReads(n, after);
    case AtLeast(n) =>
      Joined3(n, [44, 125], after);
      ExactlyReads(n, after);
    case FromTo(n, m) =>
      Joined3(n, [44] + (m + [125]), after);
      Joined3([44], m + [125], after);
      Joined3(m, [125], after);
      PairReads(n, m, after);
    case OpenExactly(n) =>
      assert n + after == n;
      ExactlyReads(n, after);
    case OpenFromTo(n, m) =>
      assert Inside(q) + after == Inside(q);
      PairReads(n, m, after);
    case _ =>
  }

  lemma QuantReads(node: Node, q: Quant, after: seq<byte>)
    requires GoodQuant(q, after)
    ensures ParseQuantifier(node, QuantText(q) + after) == Ok(Parsed(QuantNode(node, q), after, IsOpen(q)))
  {
    hide ParseBraces, Inside;
    var text := QuantText(q) + after;
    if HasBraces(q) {
      BracesRead(q, after);
      Joined3([123], Inside(q), after);
      assert text[1..] == Inside(q) + after;
    } else if q.Once? {
      assert text == after;
    } else {
      assert text[1..] == after;
    }
  }

  /** The number at the head of a brace form. */
  lemma NumberWritten(rest: seq<byte>, nums: seq<nat>) returns (n: seq<byte>, tail: seq<byte>)
    requires StartsWithDigit(rest) && ParseBraces(rest, nums).Ok?
    ensures GoodNumber(n) && !StartsWithDigit(tail) && rest == n + tail
    ensures ParseBraces(rest, nums) == ParseBraces(tail, nums + [DecimalValue(n)])
  {
    hide DecimalValue;
    var k := DigitRun(rest);
    n, tail := rest[..k], rest[k..];
    RunIsLongest(rest);
  }

  lemma {:induction false} RunIsLongest(rest: seq<byte>)
    ensures !StartsWithDigit(rest[DigitRun(rest)..])
    decreases |rest|
  {
    if StartsWithDigit(rest) {
      RunIsLongest(rest[1..]);
      var n := DigitRun(rest);
      assert rest[n..] == rest[1..][n - 1..];
    }
  }

  lemma BracesWritten(rest: seq<byte>) returns (q: Quant)
    requires ParseBraces(rest, []).Ok?
    ensures var b := ParseBraces(rest, []).value;
            && HasBraces(q) && GoodQuant(q, b.rest) && rest == Inside(q) + b.rest && b.open == IsOpen(q)
            && SameBounds(b, q)
  {
    hide DecimalValue;
    var n, tail := NumberWritten(rest, []);
    assert [] + [DecimalValue(n)] == [DecimalValue(n)];
    if tail == [] {
      q := OpenExactly(n);
    } else if tail[0] == 125 {
      q := Exactly(n);
      FirstApart(tail);
      Joined3(n, [125], tail[1..]);
    } else if StartsWithDigit(tail[1..]) {
      q := PairWritten(n, tail);
    } else {
      q := AtLeast(n);
      assert tail == [44, 125] + tail[2..];
      Joined3(n, [44, 125], tail[2..]);
    }
  }

  lemma PairWritten(n: seq<byte>, tail: seq<byte>) returns (q: Quant)
    requires GoodNumber(n) && tail != [] && tail[0] == 44 && StartsWithDigit(tail[1..])
    requires ParseBraces(tail, [DecimalValue(n)]).Ok?
    ensures var b := ParseBraces(tail, [DecimalValue(n)]).value;
            && HasBraces(q) && GoodQuant(q, b.rest) && n + tail == Inside(q) + b.rest && b.open == IsOpen(q)
            && SameBounds(b, q)
  {
    hide DecimalValue, ParseBraces;
    CommaWritten(n, tail);
    var m, end := NumberWritten(tail[1..], [DecimalValue(n)]);
    assert [DecimalValue(n)] + [DecimalValue(m)] == [DecimalValue(n), DecimalValue(m)];
    PairEnds(DecimalValue(n), DecimalValue(m), end);
    FirstApart(tail);
    if end == [] {
      q := OpenFromTo(n, m);
      assert m + end == m;
    } else {
      q := FromTo(n, m);
      var after := end[1..];
      FirstApart(end);
      Joined3(m, [125], after);
      Joined3([44], m + [125], after);
      Joined3(n, [44] + (m + [125]), after);
    }
  }

  lemma CommaWritten(n: seq<byte>, tail: seq<byte>)
    requires GoodNumber(n) && tail != [] && tail[0] == 44 && StartsWithDigit(tail[1..])
    ensures ParseBraces(tail, [DecimalValue(n)]) == ParseBraces(tail[1..], [DecimalValue(n)])
  {
    hide DecimalValue;
  }

  lemma PairEnds(n: nat, m: nat, end: seq<byte>)
    requires !StartsWithDigit(end) && ParseBraces(end, [n, m]).Ok?
    ensures n <= m && (end == [] || end[0] == 125)
    ensures ParseBraces(end, [n, m]) == Ok(Bounds(n, m, if end == [] then [] else end[1..], end == []))
  {
  }

  lemma QuantWritten(node: Node, rest: seq<byte>) returns (q: Quant)
    requires ParseQuantifier(node, rest).Ok?
    ensures var p := ParseQuantifier(node, rest).value;
            && GoodQuant(q, p.rest) && rest == QuantText(q) + p.rest
            && p.node == QuantNode(node, q) && p.open == IsOpen(q)
  {
    hide ParseQuantifier, QuantText, QuantNode, GoodQuant, IsOpen;
    if Starts(rest, LBRACE) {
      q := BraceWritten(node, rest);
    } else if NoQuantifier(rest) {
      q := Once;
      NothingWritten(node, rest);
    } else {
      q := CharWritten(node, rest);
    }
  }

  lemma NothingWritten(node: Node, rest: seq<byte>)
    requires NoQuantifier(rest)
    ensures ParseQuantifier(node, rest) == Ok(Parsed(QuantNode(node, Once), rest, IsOpen(Once)))
    ensures GoodQuant(Once, rest) && rest == QuantText(Once) + rest
  {
  }

  lemma CharWritten(node: Node, rest: seq<byte>) returns (q: Quant)
    requires !NoQuantifier(rest) && !Starts(rest, LBRACE)
    ensures ParseQuantifier(node, rest) == Ok(Parsed(QuantNode(node, q), rest[1..], IsOpen(q)))
    ensures GoodQuant(q, rest[1..]) && rest == QuantText(q) + rest[1..]
  {
    FirstApart(rest);
    q := if rest[0] == 42 then Star else if rest[0] == 43 then Plus else Maybe;
  }

  lemma BraceWritten(node: Node, rest: seq<byte>) returns (q: Quant)
    requires Starts(rest, LBRACE) && ParseQuantifier(node, rest).Ok?
    ensures var p := ParseQuantifier(node, rest).value;
            && GoodQuant(q, p.rest) && rest == QuantText(q) + p.rest
            && p.node == QuantNode(node, q) && p.open == IsOpen(q)
  {
    hide ParseBraces, Inside, GoodQuant, SameBounds, IsOpen;
    FirstApart(rest);
    q := BracesWritten(rest[1..]);
    var b := ParseBraces(rest[1..], []).value;
    Joined3([123], Inside(q), b.rest);
    BoundsOf(b, q, node);
    BraceText(q);
  }

  lemma BraceText(q: Quant)
    requires HasBraces(q)
    ensures QuantText(q) == [123] + Inside(q)
  {
    hide Inside;
  }

  lemma FirstApart(s: seq<byte>)
    requires s != []
    ensures s == [s[0]] + s[1..]
  {
  }

  lemma BoundsOf(b: Bounds, q: Quant, node: Node)
    requires SameBounds(b, q)
    ensures Repeat(node, b.min, b.max) == QuantNode(node, q)
  {
  }

  // ---------- classes, read and written ----------

  lemma ClassEscapeReads(e: byte, after: seq<byte>)
    requires e != 98
    ensures ParseClassEscape([e] + after) == Ok(Class(EscapeSet(e), after))
  {
    hide ClassEscape;
    assert ([e] + after)[1..] == after;
  }

  lemma MemberReads(m: Member, after: seq<byte>)
    requires GoodMember(m, after)
    ensures MemberText(m)[0] != 93
    ensures ParseMember(MemberText(m) + after) == Ok(Class(MemberSet(m), after))
  {
    hide ParseClassEscape, Span, EscapeSet;
    var text := MemberText(m) + after;
    match m
    case One(c) => assert text[1..] == after;
    case Range(lo, hi) =>
      assert text[1..] == [45, hi] + after && text[1..][2..] == after;
      assert text[1..][1..] == [hi] + after;
    case Escaped(e) =>
      ClassEscapeReads(e, after);
      assert text[1..] == [e] + after;
    case Dropped(lo, e) =>
      ClassEscapeReads(e, after);
      assert text[1..] == [45, 92, e] + after && text[1..][2..] == [e] + after;
      assert text[1..][1..] == [92, e] + after;
  }

  lemma {:induction false} MembersRead(ms: seq<Member>, after: seq<byte>, got: set<nat>, any: bool, negated: bool)
    requires GoodMembers(ms, [93]) && (any || negated || ms != [])
    ensures ParseMembers(MembersText(ms) + ([93] + after), got, any, negated) == Ok(Class(MembersSet(ms, got), after))
    decreases |ms|
  {
    hide ParseMember, MemberText, MemberSet, GoodMember;
    var end := [93] + after;
    if ms == [] {
      assert MembersText(ms) + end == end && end[1..] == after;
    } else {
      var rest := MembersText(ms[1..]) + end;
      MemberAhead(ms[0], MembersText(ms[1..]), after);
      MemberReads(ms[0], rest);
      Joined3(MemberText(ms[0]), MembersText(ms[1..]), end);
      MembersRead(ms[1..], after, got + MemberSet(ms[0]), true, negated);
    }
  }

  /** What follows the closing bracket does not matter to a member. */
  lemma MemberAhead(m: Member, text: seq<byte>, after: seq<byte>)
    requires GoodMember(m, text + [93])
    ensures GoodMember(m, text + ([93] + after))
  {
    var a, b := text + [93], text + ([93] + after);
    assert b == a + after;
    assert a[0] == b[0];
    if |text| > 0 {
      assert a[1..] != [] && b[1..] == a[1..] + after && a[1..][0] == b[1..][0];
    }
  }

  lemma MemberBehind(m: Member, text: seq<byte>, after: seq<byte>)
    requires GoodMember(m, text + ([93] + after))
    ensures GoodMember(m, text + [93])
  {
    var a, b := text + [93], text + ([93] + after);
    assert b == a + after;
    assert a[0] == b[0];
    if |text| > 0 {
      assert a[1..] != [] && b[1..] == a[1..] + after && a[1..][0] == b[1..][0];
    }
  }

  lemma NoKind()
    ensures ClassEscape(98) == None
  {
  }

  lemma MemberWritten(rest: seq<byte>) returns (m: Member)
    requires rest != [] && rest[0] != 93 && ParseMember(rest).Ok?
    ensures var c := ParseMember(rest).value;
            GoodMember(m, c.rest) && rest == MemberText(m) + c.rest && c.chars == MemberSet(m)
  {
    hide Span, ClassEscape;
    assert ClassEscape(98) == None by { NoKind(); }
    var lo, after := rest[0], rest[1..];
    assert rest == [lo] + after;
    if lo == BACKSLASH {
      m := Escaped(after[0]);
      assert rest == [92, after[0]] + after[1..];
    } else if DashAhead(after) {
      if after[1] == BACKSLASH {
        m := Dropped(lo, after[2]);
        assert after[2..][1..] == after[3..];
        assert rest == [lo, 45, 92, after[2]] + after[3..];
      } else {
        m := Range(lo, after[1]);
        assert after[1..][0] == after[1];
        assert rest == [lo, 45, after[1]] + after[2..];
      }
    } else {
      m := One(lo);
    }
  }

  lemma {:induction false} MembersWritten(rest: seq<byte>, got: set<nat>, any: bool, negated: bool)
      returns (ms: seq<Member>)
    requires ParseMembers(rest, got, any, negated).Ok?
    ensures var c := ParseMembers(rest, got, any, negated).value;
            && GoodMembers(ms, [93]) && (any || negated || ms != [])
            && rest == MembersText(ms) + ([93] + c.rest) && c.chars == MembersSet(ms, got)
    decreases |rest|
  {
    hide ParseMember, MemberText, MemberSet, GoodMember;
    if rest[0] == RBRACKET {
      ms := [];
      assert rest == [93] + rest[1..];
    } else {
      var m := MemberWritten(rest);
      var c := ParseMember(rest).value;
      var more := MembersWritten(c.rest, got + c.chars, true, negated);
      ms := [m] + more;
      assert ms[1..] == more;
      var end := ParseMembers(rest, got, any, negated).value.rest;
      MemberBehind(m, MembersText(more), end);
      Joined3(MemberText(m), MembersText(more), [93] + end);
    }
  }

  // ---------- atoms, read and written ----------

  lemma NoCaret(ms: seq<Member>, tail: seq<byte>)
    requires ms != [] && MembersText(ms)[..1] != [94] && GoodMembers(ms, [93])
    ensures !Starts(MembersText(ms) + tail, CARET)
  {
    var text := MembersText(ms);
    assert |text| >= 1 && (text + tail)[0] == text[0] && text[..1] == [text[0]];
  }

  lemma ClassReads(negated: bool, members: seq<Member>, after: seq<byte>)
    requires GoodAtom(Brackets(negated, members))
    ensures ParseClass((if negated then [94] else []) + (MembersText(members) + [93]) + after)
            == Ok(Parsed(CharSet(MembersSet(members, {}), negated), after, false))
  {
    hide ParseMembers;
    var inside := MembersText(members) + ([93] + after);
    var all := (if negated then [94] else []) + (MembersText(members) + [93]) + after;
    Joined3(MembersText(members), [93], after);
    MembersRead(members, after, {}, false, negated);
    if negated {
      Joined3([94], MembersText(members) + [93], after);
      assert all[1..] == inside;
    } else {
      assert all == inside;
      NoCaret(members, [93] + after);
    }
  }

  lemma ClassWritten(rest: seq<byte>) returns (a: Atom)
    requires ParseClass(rest).Ok?
    ensures var p := ParseClass(rest).value;
            && GoodAtom(a) && [91] + rest == AtomText(a) + p.rest && p.node == AtomNode(a) && !p.open
  {
    hide ParseMembers, MembersText, GoodMembers, MembersSet;
    var negated := Starts(rest, CARET);
    var inside := if negated then rest[1..] else rest;
    var ms := MembersWritten(inside, {}, false, negated);
    a := Brackets(negated, ms);
    var end := ParseClass(rest).value.rest;
    Joined3(MembersText(ms), [93], end);
    if negated {
      FirstApart(rest);
      Joined3([94], MembersText(ms) + [93], end);
      Joined3([91], [94] + (MembersText(ms) + [93]), end);
    } else {
      FirstOf(ms, [93] + end);
      assert [] + (MembersText(ms) + [93]) == MembersText(ms) + [93];
      Joined3([91], MembersText(ms) + [93], end);
    }
  }

  lemma FirstOf(ms: seq<Member>, tail: seq<byte>)
    requires ms != [] && !Starts(MembersText(ms) + tail, CARET)
    ensures MembersText(ms)[..1] != [94]
  {
    var text := MembersText(ms);
    assert |text| >= 1 && (text + tail)[0] == text[0] && text[..1] == [text[0]];
  }

  lemma EscapeReads(e: byte, after: seq<byte>)
    requires e != 98
    ensures ParseEscape([e] + after) == Ok(Parsed(CharSet(EscapeSet(e), false), after, false))
  {
    hide ParseClassEscape, EscapeSet;
    ClassEscapeReads(e, after);
  }

  lemma EscapeWritten(rest: seq<byte>) returns (a: Atom)
    requires ParseEscape(rest).Ok?
    ensures var p := ParseEscape(rest).value;
            && GoodAtom(a) && [92] + rest == AtomText(a) + p.rest && p.node == AtomNode(a) && !p.open
  {
    hide ClassEscape;
    assert rest == [rest[0]] + rest[1..];
    assert [92] + rest == [92, rest[0]] + rest[1..];
    a := if rest[0] == 98 then Boundary else Escape(rest[0]);
  }

  lemma {:induction false} AtomReads(a: Atom, after: seq<byte>)
    requires GoodAtom(a)
    ensures AtomText(a) != [] && AtomText(a)[0] != BAR && AtomText(a)[0] != RPAREN
    ensures ParseBase(AtomText(a) + after) == Ok(Parsed(AtomNode(a), after, false))
    decreases a, 0
  {
    hide ParseClass, ParseEscape, DotSet, EscapeSet, ParseAlternatives;
    var text := AtomText(a) + after;
    match a
    case Boundary => assert text[1..] == [98] + after && ([98] + after)[1..] == after;
      assert ParseEscape([98] + after) == Ok(Parsed(WordBoundary, after, false)) by { BoundaryReads(after); }
    case Escape(e) =>
      assert text[1..] == [e] + after;
      EscapeReads(e, after);
    case Brackets(negated, members) =>
      var inside := (if negated then [94] else []) + (MembersText(members) + [93]);
      Joined3([91], inside, after);
      assert text[1..] == inside + after;
      ClassReads(negated, members, after);
    case Group(alts) =>
      Joined3([40], AltsText(alts) + [41], after);
      Joined3(AltsText(alts), [41], after);
      assert text[1..] == AltsText(alts) + ([41] + after);
      AltsContext(alts, [41], [41] + after);
      AltsRead(alts, [41] + after, []);
      assert [] + AltNodes(alts) == AltNodes(alts);
      assert ([41] + after)[1..] == after;
    case _ => assert text[1..] == after;
  }

  lemma BoundaryReads(after: seq<byte>)
    ensures ParseEscape([98] + after) == Ok(Parsed(WordBoundary, after, false))
  {
    assert ([98] + after)[1..] == after;
  }

  lemma {:induction false} ItemReads(it: Item, after: seq<byte>)
    requires GoodItem(it, after)
    ensures ItemText(it) != [] && ItemText(it)[0] != BAR && ItemText(it)[0] != RPAREN
    ensures ParseAtom(ItemText(it) + after) == Ok(Parsed(ItemNode(it), after, IsOpen(it.quant)))
    decreases it, 0
  {
    hide ParseBase, ParseQuantifier, AtomText, QuantText, GoodAtom, GoodQuant, AtomNode, QuantNode;
    AtomReads(it.atom, QuantText(it.quant) + after);
    QuantReads(AtomNode(it.atom), it.quant, after);
    Joined3(AtomText(it.atom), QuantText(it.quant), after);
  }

  /** An unclosed brace form can only come last. */
  predicate EndsOpen(items: seq<Item>) {
    items != [] && IsOpen(items[|items| - 1].quant)
  }

  predicate Stops(after: seq<byte>) {
    after == [] || after[0] == BAR || after[0] == RPAREN
  }

  lemma {:induction false} ItemsRead(items: seq<Item>, after: seq<byte>, nodes: seq<Node>, open: bool)
    requires GoodItems(items, after) && Stops(after)
    ensures ParseItems(ItemsText(items) + after, nodes, open)
            == Ok(Parsed(Sequence(nodes + ItemNodes(items)), after, if items == [] then open else EndsOpen(items)))
    decreases items, 1
  {
    hide ParseAtom, ItemText, GoodItem, ItemNode, Sequence;
    if items == [] {
      assert ItemsText(items) + after == after && nodes + ItemNodes(items) == nodes;
    } else {
      var it, rest := items[0], ItemsText(items[1..]) + after;
      Joined3(ItemText(it), ItemsText(items[1..]), after);
      ItemReads(it, rest);
      ItemsRead(items[1..], after, nodes + [ItemNode(it)], IsOpen(it.quant));
      assert nodes + [ItemNode(it)] + ItemNodes(items[1..]) == nodes + ItemNodes(items);
      assert (ItemText(it) + rest)[0] == ItemText(it)[0];
    }
  }

  function LastOf(alts: seq<Branch>): seq<Item> {
    if alts == [] then [] else alts[|alts| - 1].items
  }

  lemma AltsCons(alts: seq<Branch>, after: seq<byte>)
    requires |alts| > 1
    ensures AltsText(alts) == BranchText(alts[0]) + ([124] + AltsText(alts[1..]))
    ensures AltNodes(alts) == [BranchNode(alts[0])] + AltNodes(alts[1..])
    ensures GoodAlts(alts, after)
            <==> GoodBranch(alts[0], [124] + (AltsText(alts[1..]) + after)) && GoodAlts(alts[1..], after)
    ensures LastOf(alts) == LastOf(alts[1..])
  {
    hide BranchText, BranchNode, GoodBranch;
  }

  lemma AltsOne(b: Branch, after: seq<byte>)
    ensures AltsText([b]) == BranchText(b) && AltNodes([b]) == [BranchNode(b)]
    ensures GoodAlts([b], after) <==> GoodBranch(b, after)
    ensures LastOf([b]) == b.items
  {
    hide BranchText, BranchNode, GoodBranch;
    assert AltNodes([b][1..]) == [];
  }

  lemma AltsStep(rest: seq<byte>, nodes: seq<Node>, node: Node, after: seq<byte>, open: bool)
    requires ParseItems(rest, [], false) == Ok(Parsed(node, after, open))
    ensures Starts(after, BAR) ==> ParseAlternatives(rest, nodes) == ParseAlternatives(after[1..], nodes + [node])
    ensures !Starts(after, BAR) ==> ParseAlternatives(rest, nodes) == Ok(Parsed(Choice(nodes + [node]), after, open))
  {
    hide ParseItems, Choice;
  }

  lemma {:induction false} AltsRead(alts: seq<Branch>, after: seq<byte>, nodes: seq<Node>)
    requires alts != [] && GoodAlts(alts, after) && (after == [] || after[0] == RPAREN)
    ensures ParseAlternatives(AltsText(alts) + after, nodes)
            == Ok(Parsed(Choice(nodes + AltNodes(alts)), after, EndsOpen(LastOf(alts))))
    decreases alts, 2
  {
    hide ParseItems, ParseAlternatives, BranchText, BranchNode, GoodBranch, Choice, EndsOpen, AltsText, GoodAlts,
         AltNodes, LastOf;
    var b := alts[0];
    if |alts| == 1 {
      assert alts == [b];
      AltsOne(b, after);
      BranchReads(b, after);
      AltsStep(BranchText(b) + after, nodes, BranchNode(b), after, EndsOpen(b.items));
    } else {
      var rest := AltsText(alts[1..]) + after;
      AltsCons(alts, after);
      Joined3(BranchText(b), [124] + AltsText(alts[1..]), after);
      Joined3([124], AltsText(alts[1..]), after);
      BranchReads(b, [124] + rest);
      AltsStep(BranchText(b) + ([124] + rest), nodes, BranchNode(b), [124] + rest, EndsOpen(b.items));
      assert ([124] + rest)[1..] == rest;
      AltsRead(alts[1..], after, nodes + [BranchNode(b)]);
      NodesJoined(nodes, BranchNode(b), AltNodes(alts[1..]));
    }
  }

  lemma NodesJoined(nodes: seq<Node>, node: Node, more: seq<Node>)
    ensures nodes + [node] + more == nodes + ([node] + more)
  {
  }

  lemma {:induction false} BranchReads(b: Branch, after: seq<byte>)
    requires GoodBranch(b, after) && Stops(after)
    ensures ParseItems(BranchText(b) + after, [], false) == Ok(Parsed(BranchNode(b), after, EndsOpen(b.items)))
    decreases b, 0
  {
    hide ParseItems, ItemsText, GoodItems, ItemNodes, Sequence;
    ItemsRead(b.items, after, [], false);
    assert [] + ItemNodes(b.items) == ItemNodes(b.items);
  }

  // ---------- what follows matters only by its first character ----------

  lemma {:induction false} ItemsContext(items: seq<Item>, x: seq<byte>, y: seq<byte>)
    requires x != [] && y != [] && x[0] == y[0]
    ensures GoodItems(items, x) <==> GoodItems(items, y)
    decreases |items|
  {
    hide GoodAtom, ItemsText;
    if items != [] {
      ItemsContext(items[1..], x, y);
      var text := ItemsText(items[1..]);
      assert (text + x) != [] && (text + y) != [] && (text + x)[0] == (text + y)[0];
      QuantContext(items[0].quant, text + x, text + y);
    }
  }

  lemma QuantContext(q: Quant, x: seq<byte>, y: seq<byte>)
    requires x != [] && y != [] && x[0] == y[0]
    ensures GoodQuant(q, x) <==> GoodQuant(q, y)
  {
    hide DecimalValue;
  }

  lemma {:induction false} AltsContext(alts: seq<Branch>, x: seq<byte>, y: seq<byte>)
    requires x != [] && y != [] && x[0] == y[0]
    ensures GoodAlts(alts, x) <==> GoodAlts(alts, y)
    decreases |alts|
  {
    hide GoodItems;
    if |alts| == 1 {
      ItemsContext(alts[0].items, x, y);
    } else if alts != [] {
      AltsContext(alts[1..], x, y);
      ItemsContext(alts[0].items, [124] + (AltsText(alts[1..]) + x), [124] + (AltsText(alts[1..]) + y));
    }
  }

  // ---------- whatever is read was written so ----------

  lemma {:induction false} AtomWritten(rest: seq<byte>) returns (a: Atom)
    requires rest != [] && rest[0] != BAR && rest[0] != RPAREN && ParseBase(rest).Ok?
    ensures var p := ParseBase(rest).value;
            GoodAtom(a) && rest == AtomText(a) + p.rest && p.node == AtomNode(a)
    decreases |rest|, 1
  {
    hide ParseClass, ParseEscape, DotSet, ParseAlternatives, GoodMembers;
    var c, after := rest[0], rest[1..];
    FirstApart(rest);
    if c == CARET {
      a := Start;
    } else if c == DOLLAR {
      a := End;
    } else if c == DOT {
      a := Dot;
    } else if c == LPAREN {
      a := GroupWritten(rest);
    } else if c == LBRACKET {
      a := ClassWritten(after);
    } else if c == BACKSLASH {
      a := EscapeWritten(after);
    } else {
      a := Plain(c);
    }
  }

  lemma {:induction false} GroupWritten(rest: seq<byte>) returns (a: Atom)
    requires rest != [] && rest[0] == LPAREN && ParseBase(rest).Ok?
    ensures var p := ParseBase(rest).value;
            GoodAtom(a) && rest == AtomText(a) + p.rest && p.node == AtomNode(a)
    decreases |rest|, 0
  {
    hide ParseAlternatives, AltsText, GoodAlts, AltNodes;
    var after := rest[1..];
    FirstApart(rest);
    var alts := AltsWritten(after, []);
    a := Group(alts);
    var inner := ParseAlternatives(after, []).value;
    AltsContext(alts, inner.rest, [41]);
    FirstApart(inner.rest);
    Joined3(AltsText(alts), [41], inner.rest[1..]);
    Joined3([40], AltsText(alts) + [41], inner.rest[1..]);
    assert [] + AltNodes(alts) == AltNodes(alts);
  }

  lemma {:induction false} ItemWritten(rest: seq<byte>) returns (it: Item)
    requires rest != [] && rest[0] != BAR && rest[0] != RPAREN && ParseAtom(rest).Ok?
    ensures var p := ParseAtom(rest).value;
            && GoodItem(it, p.rest) && rest == ItemText(it) + p.rest && p.node == ItemNode(it)
            && p.open == IsOpen(it.quant)
    decreases |rest|, 2
  {
    hide ParseBase, ParseQuantifier, AtomText, QuantText, GoodAtom, GoodQuant, AtomNode, QuantNode;
    var base := ParseBase(rest).value;
    var a := AtomWritten(rest);
    var q := QuantWritten(base.node, base.rest);
    it := Item(a, q);
    Joined3(AtomText(a), QuantText(q), ParseAtom(rest).value.rest);
  }

  lemma {:induction false} ItemsWritten(rest: seq<byte>, nodes: seq<Node>, open: bool) returns (items: seq<Item>)
    requires ParseItems(rest, nodes, open).Ok?
    ensures var p := ParseItems(rest, nodes, open).value;
            && GoodItems(items, p.rest) && Stops(p.rest) && rest == ItemsText(items) + p.rest
            && p.node == Sequence(nodes + ItemNodes(items))
            && p.open == if items == [] then open else EndsOpen(items)
    decreases |rest|, 3
  {
    hide ParseAtom, ItemText, GoodItem, ItemNode, Sequence;
    if Stops(rest) {
      items := [];
      assert ItemsText(items) + rest == rest && nodes + ItemNodes(items) == nodes;
    } else {
      var it := ItemWritten(rest);
      var p := ParseAtom(rest).value;
      var more := ItemsWritten(p.rest, nodes + [p.node], p.open);
      var end := ParseItems(rest, nodes, open).value.rest;
      items := [it] + more;
      assert items[1..] == more;
      Joined3(ItemText(it), ItemsText(more), end);
      assert nodes + [p.node] + ItemNodes(more) == nodes + ItemNodes(items);
    }
  }

  lemma {:induction false} AltsWritten(rest: seq<byte>, nodes: seq<Node>) returns (alts: seq<Branch>)
    requires ParseAlternatives(rest, nodes).Ok?
    ensures var p := ParseAlternatives(rest, nodes).value;
            && alts != [] && GoodAlts(alts, p.rest) && (p.rest == [] || p.rest[0] == RPAREN)
            && rest == AltsText(alts) + p.rest && p.node == Choice(nodes + AltNodes(alts))
            && p.open == EndsOpen(LastOf(alts))
    decreases |rest|, 5
  {
    hide ParseItems, ParseAlternatives, BranchText, BranchNode, GoodBranch, Choice, EndsOpen, AltsText, GoodAlts,
         AltNodes, LastOf;
    ItemsFirst(rest, nodes);
    var b := BranchWritten(rest);
    var p := ParseItems(rest, [], false).value;
    AltsStep(rest, nodes, p.node, p.rest, p.open);
    if Starts(p.rest, BAR) {
      var more := AltsWritten(p.rest[1..], nodes + [p.node]);
      var end := ParseAlternatives(rest, nodes).value.rest;
      alts := [b] + more;
      assert alts[1..] == more && alts[0] == b;
      AltsCons(alts, end);
      FirstApart(p.rest);
      Joined3([124], AltsText(more), end);
      Joined3(BranchText(b), [124] + AltsText(more), end);
      NodesJoined(nodes, p.node, AltNodes(more));
    } else {
      alts := [b];
      AltsOne(b, p.rest);
    }
  }

  lemma ItemsFirst(rest: seq<byte>, nodes: seq<Node>)
    requires ParseAlternatives(rest, nodes).Ok?
    ensures ParseItems(rest, [], false).Ok?
  {
    hide ParseItems;
  }

  lemma {:induction false} BranchWritten(rest: seq<byte>) returns (b: Branch)
    requires ParseItems(rest, [], false).Ok?
    ensures var p := ParseItems(rest, [], false).value;
            && GoodBranch(b, p.rest) && Stops(p.rest) && rest == BranchText(b) + p.rest
            && p.node == BranchNode(b) && p.open == EndsOpen(b.items)
    decreases |rest|, 4
  {
    hide ParseItems, ItemsText, GoodItems, ItemNodes, Sequence;
    var items := ItemsWritten(rest, [], false);
    b := Branch(items);
    assert [] + ItemNodes(items) == ItemNodes(items);
  }

  // ---------- whole patterns ----------

  /** A tree whose text is the pattern. */
  ghost predicate Writes(alts: seq<Branch>, pattern: seq<byte>) {
    alts != [] && GoodAlts(alts, []) && AltsText(alts) == pattern
  }

  lemma WrittenCompiles(alts: seq<Branch>, pattern: seq<byte>)
    requires Writes(alts, pattern)
    ensures Compile(pattern) == Ok(Choice(AltNodes(alts)))
    ensures EndsInOpenBrace(pattern) <==> EndsOpen(LastOf(alts))
  {
    hide ParseAlternatives, AltsText, GoodAlts, AltNodes;
    assert AltsText(alts) + [] == AltsText(alts);
    AltsRead(alts, [], []);
    assert [] + AltNodes(alts) == AltNodes(alts);
  }

  lemma CompiledIsWritten(pattern: seq<byte>) returns (alts: seq<Branch>)
    requires Compile(pattern).Ok?
    ensures Writes(alts, pattern)
  {
    hide ParseAlternatives, AltsText, GoodAlts, AltNodes;
    alts := AltsWritten(pattern, []);
    assert AltsText(alts) + [] == AltsText(alts);
  }

  /** A pattern compiles exactly if it is the text of a syntax tree, and to the node of that
      tree. */
  lemma CompilesIff(pattern: seq<byte>, node: Node)
    ensures Compile(pattern) == Ok(node) <==> exists alts :: Writes(alts, pattern) && Choice(AltNodes(alts)) == node
  {
    hide Compile, AltNodes, AltsText, GoodAlts;
    if Compile(pattern) == Ok(node) {
      var alts := CompiledIsWritten(pattern);
      WrittenCompiles(alts, pattern);
    }
    if alts :| Writes(alts, pattern) && Choice(AltNodes(alts)) == node {
      WrittenCompiles(alts, pattern);
    }
  }
}
