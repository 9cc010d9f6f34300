/** Parsing regular expressions, and what anchoring a pattern does
    (src/fastapi_mojo_rs/src/bridge/regex.rs). */
module RegexParser {
  import opened Wrappers
  import opened Bits
  import opened Decimals
  import opened RegexMeaning

  datatype PatternError =
    | TrailingInput | UnbalancedParen | DanglingBrace | BraceOverflow | BadBrace | BraceOrder
    | UnterminatedClass | EmptyClass | TrailingBackslash | BoundaryEscape | DanglingDash | InvertedRange

  // The characters with a meaning.
  const CARET: byte := 94
  const DOLLAR: byte := 36
  const DOT: byte := 46
  const LPAREN: byte := 40
  const RPAREN: byte := 41
  const LBRACKET: byte := 91
  const RBRACKET: byte := 93
  const LBRACE: byte := 123
  const RBRACE: byte := 125
  const BACKSLASH: byte := 92
  const BAR: byte := 124
  const STAR: byte := 42
  const PLUS: byte := 43
  const QUESTION: byte := 63
  const COMMA: byte := 44
  const DASH: byte := 45
  const LETTER_B: byte := 98

  // ---------- character sets ----------

  predicate Between(v: nat, lo: nat, hi: nat) {
    lo <= v <= hi
  }

  function Span(lo: nat, hi: nat): set<nat> {
    set v: nat | lo <= v <= hi && Between(v, lo, hi)
  }

  /** What \d, \D, \w, \W, \s and \S stand for, in ASCII. */
  function ClassEscape(c: byte): Option<set<nat>> {
    match c
    case 100 => Some(Span(0x30, 0x39))
    case 68 => Some(Span(0x00, 0x2f) + Span(0x3a, 0x40) + Span(0x5b, 0x60) + Span(0x7b, 0x7f))
    case 119 => Some(Span(0x30, 0x39) + Span(0x41, 0x5a) + Span(0x5f, 0x5f) + Span(0x61, 0x7a))
    case 87 => Some(Span(0x00, 0x2f) + Span(0x3a, 0x40) + Span(0x5b, 0x5e) + Span(0x60, 0x60) + Span(0x7b, 0x7f))
    case 115 => Some(Span(0x09, 0x0d) + Span(0x20, 0x20))
    case 83 => Some(Span(0x00, 0x08) + Span(0x0e, 0x1f) + Span(0x21, 0x7f))
    case _ => None
  }

  /** In ASCII \W and \S are exact complements of \w and \s.  \D is not the complement of
      \d: it leaves out the letters too. */
  lemma NegatedEscapes(c: nat)
    requires c < 128
    ensures c in ClassEscape(119).value <==> IsWordChar(c)
    ensures c in ClassEscape(87).value <==> c !in ClassEscape(119).value
    ensures c in ClassEscape(83).value <==> c !in ClassEscape(115).value
    ensures c in ClassEscape(68).value <==> c !in ClassEscape(100).value && !(65 <= c <= 90 || 97 <= c <= 122)
  {
  }

  /** Any ASCII character but a newline. */
  function DotSet(): set<nat> {
    Span(0, 0x7f) - {NEWLINE}
  }

  function CharEscape(c: byte): Result<nat, PatternError> {
    match c
    case 110 => Ok(10)
    case 116 => Ok(9)
    case 114 => Ok(13)
    case 102 => Ok(12)
    case 118 => Ok(11)
    case 97 => Ok(7)
    case 48 => Ok(0)
    case 98 => Err(BoundaryEscape)
    case _ => Ok(c)
  }

  // ---------- the grammar ----------

  /** A node and what follows it; `open` says that a brace form was ended by the end of the
      pattern instead of a closing brace. */
  datatype Parsed = Parsed(node: Node, rest: seq<byte>, open: bool)

  datatype Bounds = Bounds(min: nat, max: nat, rest: seq<byte>, open: bool)

  /** The characters collected for a class. */
  datatype Class = Class(chars: set<nat>, rest: seq<byte>)

  predicate Starts(rest: seq<byte>, c: byte) {
    rest != [] && rest[0] == c
  }

  predicate StartsWithDigit(rest: seq<byte>) {
    rest != [] && IsDigit(rest[0])
  }

  /** The length of the leading run of digits. */
  function DigitRun(rest: seq<byte>): (n: nat)
    ensures n <= |rest| && AllDigits(rest[..n]) && (StartsWithDigit(rest) ==> n > 0)
  {
    if !StartsWithDigit(rest) then 0
    else
      var n := 1 + DigitRun(rest[1..]);
      assert rest[..n] == [rest[0]] + rest[1..][..n - 1];
      n
  }

  function FinishBraces(nums: seq<nat>, rest: seq<byte>, open: bool): Result<Bounds, PatternError> {
    if |nums| == 1 then Ok(Bounds(nums[0], nums[0], rest, open))
    else if |nums| == 2 then if nums[0] > nums[1] then Err(BraceOrder) else Ok(Bounds(nums[0], nums[1], rest, open))
    else Err(BadBrace)
  }

  /** The inside of {n}, {n,} or {n,m}, after the opening brace. */
  function ParseBraces(rest: seq<byte>, nums: seq<nat>): (r: Result<Bounds, PatternError>)
    ensures r.Ok? ==> |r.value.rest| <= |rest|
    decreases |rest|
  {
    if rest == [] then FinishBraces(nums, [], true)
    else if IsDigit(rest[0]) then
      var n := DigitRun(rest);
      if DecimalValue(rest[..n]) > UNBOUNDED then Err(BraceOverflow)
      else ParseBraces(rest[n..], nums + [DecimalValue(rest[..n])])
    else if rest[0] == COMMA && |nums| == 1 then
      if StartsWithDigit(rest[1..]) then ParseBraces(rest[1..], nums)
      else if Starts(rest[1..], RBRACE) then Ok(Bounds(nums[0], UNBOUNDED, rest[2..], false))
      else Err(BadBrace)
    else if rest[0] == RBRACE then FinishBraces(nums, rest[1..], false)
    else Err(BadBrace)
  }

  function ParseQuantifier(base: Node, rest: seq<byte>): (r: Result<Parsed, PatternError>)
    ensures r.Ok? ==> |r.value.rest| <= |rest|
  {
    if Starts(rest, STAR) then Ok(Parsed(Repeat(base, 0, UNBOUNDED), rest[1..], false))
    else if Starts(rest, PLUS) then Ok(Parsed(Repeat(base, 1, UNBOUNDED), rest[1..], false))
    else if Starts(rest, QUESTION) then Ok(Parsed(Repeat(base, 0, 1), rest[1..], false))
    else if Starts(rest, LBRACE) then
      match ParseBraces(rest[1..], [])
      case Err(e) => Err(e)
      case Ok(Bounds(min, max, after, open)) => Ok(Parsed(Repeat(base, min, max), after, open))
    else Ok(Parsed(base, rest, false))
  }

  /** An escape inside a class, after the backslash. */
  function ParseClassEscape(rest: seq<byte>): Result<Class, PatternError> {
    if rest == [] then Err(TrailingBackslash)
    else if ClassEscape(rest[0]).Some? then Ok(Class(ClassEscape(rest[0]).value, rest[1..]))
    else if CharEscape(rest[0]).Err? then Err(CharEscape(rest[0]).error)
    else Ok(Class({CharEscape(rest[0]).value}, rest[1..]))
  }

  /** One member of a class that is not its closing bracket. */
  function ParseMember(rest: seq<byte>): (r: Result<Class, PatternError>)
    requires rest != []
    ensures r.Ok? ==> |r.value.rest| < |rest|
  {
    var lo, after := rest[0], rest[1..];
    if lo == BACKSLASH then ParseClassEscape(after)
    else if Starts(after, DASH) && !Starts(after[1..], RBRACKET) then
      if |after| < 2 then Err(DanglingDash)
      else if after[1] == BACKSLASH then ParseClassEscape(after[2..])
      else if lo > after[1] then Err(InvertedRange)
      else Ok(Class(Span(lo, after[1]), after[2..]))
    else Ok(Class({lo as nat}, after))
  }

  function ParseMembers(rest: seq<byte>, chars: set<nat>, any: bool, negated: bool): (r: Result<Class, PatternError>)
    ensures r.Ok? ==> |r.value.rest| < |rest|
    decreases |rest|
  {
    if rest == [] then Err(UnterminatedClass)
    else if rest[0] == RBRACKET then if !any && !negated then Err(EmptyClass) else Ok(Class(chars, rest[1..]))
    else
      match ParseMember(rest)
      case Err(e) => Err(e)
      case Ok(Class(more, after)) => ParseMembers(after, chars + more, true, negated)
  }

  function ParseClass(rest: seq<byte>): (r: Result<Parsed, PatternError>)
    ensures r.Ok? ==> |r.value.rest| <= |rest|
  {
    var negated := Starts(rest, CARET);
    match ParseMembers(if negated then rest[1..] else rest, {}, false, negated)
    case Err(e) => Err(e)
    case Ok(Class(chars, after)) => Ok(Parsed(CharSet(chars, negated), after, false))
  }

  /** A class that is closed at once is refused, and nothing else is; behind a caret it is
      not, and then holds every character. */
  lemma EmptyClassIff(rest: seq<byte>)
    ensures ParseClass(rest) == Err(EmptyClass) <==> Starts(rest, RBRACKET)
    ensures ParseClass([CARET, RBRACKET] + rest) == Ok(Parsed(CharSet({}, true), rest, false))
  {
    hide ParseMember;
    var inside := [CARET, RBRACKET] + rest;
    assert inside[1..] == [RBRACKET] + rest && ([RBRACKET] + rest)[1..] == rest;
    var negated := Starts(rest, CARET);
    if !Starts(rest, RBRACKET) {
      NeverEmpty(if negated then rest[1..] else rest, {}, false, negated);
    }
  }

  lemma {:induction false} NeverEmpty(rest: seq<byte>, chars: set<nat>, any: bool, negated: bool)
    requires any || negated || !Starts(rest, RBRACKET)
    ensures ParseMembers(rest, chars, any, negated) != Err(EmptyClass)
    decreases |rest|
  {
    if rest != [] && rest[0] != RBRACKET && ParseMember(rest).Ok? {
      var m := ParseMember(rest).value;
      NeverEmpty(m.rest, chars + m.chars, true, negated);
    }
  }

  function ParseEscape(rest: seq<byte>): (r: Result<Parsed, PatternError>)
    ensures r.Ok? ==> |r.value.rest| <= |rest|
  {
    if Starts(rest, LETTER_B) then Ok(Parsed(WordBoundary, rest[1..], false))
    else
      match ParseClassEscape(rest)
      case Err(e) => Err(e)
      case Ok(Class(chars, after)) => Ok(Parsed(CharSet(chars, false), after, false))
  }

  /** An atom without its quantifier. */
  function ParseBase(rest: seq<byte>): (r: Result<Parsed, PatternError>)
    requires rest != []
    ensures r.Ok? ==> |r.value.rest| < |rest|
    decreases |rest|, 0
  {
    var c, after := rest[0], rest[1..];
    if c == CARET then Ok(Parsed(AnchorStart, after, false))
    else if c == DOLLAR then Ok(Parsed(AnchorEnd, after, false))
    else if c == DOT then Ok(Parsed(CharSet(DotSet(), false), after, false))
    else if c == LPAREN then
      match ParseAlternatives(after, [])
      case Err(e) => Err(e)
      case Ok(Parsed(inner, end, _)) =>
        if Starts(end, RPAREN) then Ok(Parsed(inner, end[1..], false)) else Err(UnbalancedParen)
    else if c == LBRACKET then ParseClass(after)
    else if c == BACKSLASH then ParseEscape(after)
    else if c == LBRACE then Err(DanglingBrace)
    else Ok(Parsed(CharSet({c as nat}, false), after, false))
  }

  function ParseAtom(rest: seq<byte>): (r: Result<Parsed, PatternError>)
    requires rest != []
    ensures r.Ok? ==> |r.value.rest| < |rest|
    decreases |rest|, 1
  {
    match ParseBase(rest)
    case Err(e) => Err(e)
    case Ok(Parsed(base, after, _)) => ParseQuantifier(base, after)
  }

  function Sequence(items: seq<Node>): Node {
    if items == [] then Empty else if |items| == 1 then items[0] else Concat(items)
  }

  function ParseItems(rest: seq<byte>, items: seq<Node>, open: bool): (r: Result<Parsed, PatternError>)
    ensures r.Ok? ==> |r.value.rest| <= |rest|
    decreases |rest|, 2
  {
    if rest == [] || rest[0] == BAR || rest[0] == RPAREN then Ok(Parsed(Sequence(items), rest, open))
    else
      match ParseAtom(rest)
      case Err(e) => Err(e)
      case Ok(Parsed(item, after, open')) => ParseItems(after, items + [item], open')
  }

  function Choice(alts: seq<Node>): Node
    requires alts != []
  {
    if |alts| == 1 then alts[0] else Alt(alts)
  }

  function ParseAlternatives(rest: seq<byte>, alts: seq<Node>): (r: Result<Parsed, PatternError>)
    ensures r.Ok? ==> |r.value.rest| <= |rest|
    decreases |rest|, 3
  {
    match ParseItems(rest, [], false)
    case Err(e) => Err(e)
    case Ok(Parsed(node, after, open)) =>
      if Starts(after, BAR) then ParseAlternatives(after[1..], alts + [node])
      else Ok(Parsed(Choice(alts + [node]), after, open))
  }

  function Compile(pattern: seq<byte>): Result<Node, PatternError> {
    match ParseAlternatives(pattern, [])
    case Err(e) => Err(e)
    case Ok(Parsed(node, rest, _)) => if rest == [] then Ok(node) else Err(TrailingInput)
  }

  // ---------- a pattern inside parentheses ----------

  /** What parsing gives when a closing parenthesis follows: the same, unless a brace form
      was still open. */
  function Extended(r: Result<Parsed, PatternError>, tail: seq<byte>): Result<Parsed, PatternError>
    requires r.Ok?
  {
    if r.value.open then Err(BadBrace) else Ok(r.value.(rest := r.value.rest + tail))
  }

  lemma {:induction false} DigitRunExtends(rest: seq<byte>, tail: seq<byte>)
    requires Starts(tail, RPAREN)
    ensures DigitRun(rest + tail) == DigitRun(rest)
  {
    if rest == [] {
      assert rest + tail == tail;
    } else {
      assert (rest + tail)[1..] == rest[1..] + tail;
      DigitRunExtends(rest[1..], tail);
    }
  }

  lemma {:induction false} BracesExtend(rest: seq<byte>, nums: seq<nat>, tail: seq<byte>)
    requires Starts(tail, RPAREN) && ParseBraces(rest, nums).Ok?
    ensures var b := ParseBraces(rest, nums).value;
            && (b.open ==> b.rest == [])
            && ParseBraces(rest + tail, nums) == if b.open then Err(BadBrace) else Ok(b.(rest := b.rest + tail))
    decreases |rest|
  {
    hide DecimalValue;
    var all := rest + tail;
    if rest == [] {
      assert all == tail;
    } else if IsDigit(rest[0]) {
      var n := DigitRun(rest);
      DigitRunExtends(rest, tail);
      assert all[..n] == rest[..n] && all[n..] == rest[n..] + tail;
      BracesExtend(rest[n..], nums + [DecimalValue(rest[..n])], tail);
    } else {
      assert all[1..] == rest[1..] + tail;
      if rest[0] == COMMA && |nums| == 1 {
        if StartsWithDigit(rest[1..]) {
          BracesExtend(rest[1..], nums, tail);
        } else {
          assert all[2..] == rest[2..] + tail;
        }
      }
    }
  }

  lemma QuantifierExtends(base: Node, rest: seq<byte>, tail: seq<byte>)
    requires Starts(tail, RPAREN) && ParseQuantifier(base, rest).Ok?
    ensures var q := ParseQuantifier(base, rest);
            (q.value.open ==> q.value.rest == []) && ParseQuantifier(base, rest + tail) == Extended(q, tail)
  {
    hide ParseBraces;
    if rest == [] {
      assert rest + tail == tail;
    } else {
      assert (rest + tail)[1..] == rest[1..] + tail;
      if Starts(rest, LBRACE) {
        BracesExtend(rest[1..], [], tail);
      }
    }
  }

  lemma ClassEscapeExtends(rest: seq<byte>, tail: seq<byte>)
    requires ParseClassEscape(rest).Ok?
    ensures ParseClassEscape(rest + tail)
            == Ok(ParseClassEscape(rest).value.(rest := ParseClassEscape(rest).value.rest + tail))
  {
    hide ClassEscape, CharEscape;
    assert (rest + tail)[1..] == rest[1..] + tail;
  }

  lemma MemberExtends(rest: seq<byte>, tail: seq<byte>)
    requires rest != [] && Starts(tail, RPAREN) && ParseMember(rest).Ok?
    ensures ParseMember(rest + tail) == Ok(ParseMember(rest).value.(rest := ParseMember(rest).value.rest + tail))
  {
    hide ParseClassEscape, Span;
    var after := rest[1..];
    assert (rest + tail)[1..] == after + tail;
    if rest[0] == BACKSLASH {
      ClassEscapeExtends(after, tail);
    } else if after != [] {
      assert (after + tail)[1..] == after[1..] + tail;
      if |after| >= 2 {
        assert (after + tail)[2..] == after[2..] + tail;
        if after[1] == BACKSLASH && ParseClassEscape(after[2..]).Ok? {
          ClassEscapeExtends(after[2..], tail);
        }
      }
    }
  }

  lemma {:induction false} MembersExtend(rest: seq<byte>, chars: set<nat>, any: bool, negated: bool, tail: seq<byte>)
    requires Starts(tail, RPAREN) && ParseMembers(rest, chars, any, negated).Ok?
    ensures var c := ParseMembers(rest, chars, any, negated).value;
            ParseMembers(rest + tail, chars, any, negated) == Ok(c.(rest := c.rest + tail))
    decreases |rest|
  {
    hide ParseMember;
    if rest[0] == RBRACKET {
      assert (rest + tail)[1..] == rest[1..] + tail;
    } else {
      var m := ParseMember(rest).value;
      MemberExtends(rest, tail);
      MembersExtend(m.rest, chars + m.chars, true, negated, tail);
    }
  }

  lemma ClassExtends(rest: seq<byte>, tail: seq<byte>)
    requires Starts(tail, RPAREN) && ParseClass(rest).Ok?
    ensures ParseClass(rest + tail) == Extended(ParseClass(rest), tail) && !ParseClass(rest).value.open
  {
    var negated := Starts(rest, CARET);
    assert (rest + tail)[1..] == rest[1..] + tail;
    MembersExtend(if negated then rest[1..] else rest, {}, false, negated, tail);
  }

  lemma EscapeExtends(rest: seq<byte>, tail: seq<byte>)
    requires Starts(tail, RPAREN) && ParseEscape(rest).Ok?
    ensures ParseEscape(rest + tail) == Extended(ParseEscape(rest), tail) && !ParseEscape(rest).value.open
  {
    hide ParseClassEscape;
    if Starts(rest, LETTER_B) {
      assert (rest + tail)[1..] == rest[1..] + tail;
    } else {
      ClassEscapeExtends(rest, tail);
    }
  }

  lemma {:induction false} BaseExtends(rest: seq<byte>, tail: seq<byte>)
    requires rest != [] && Starts(tail, RPAREN) && ParseBase(rest).Ok?
    ensures ParseBase(rest + tail) == Extended(ParseBase(rest), tail) && !ParseBase(rest).value.open
    decreases |rest|, 0
  {
    hide ParseClass, ParseEscape, DotSet;
    var c, after := rest[0], rest[1..];
    assert (rest + tail)[1..] == after + tail && (rest + tail)[0] == c;
    if c == LPAREN {
      var inner := ParseAlternatives(after, []).value;
      AlternativesExtend(after, [], tail);
      assert (inner.rest + tail)[1..] == inner.rest[1..] + tail;
    } else if c == LBRACKET {
      ClassExtends(after, tail);
    } else if c == BACKSLASH {
      EscapeExtends(after, tail);
    }
  }

  lemma {:induction false} AtomExtends(rest: seq<byte>, tail: seq<byte>)
    requires rest != [] && Starts(tail, RPAREN) && ParseAtom(rest).Ok?
    ensures ParseAtom(rest + tail) == Extended(ParseAtom(rest), tail)
    ensures ParseAtom(rest).value.open ==> ParseAtom(rest).value.rest == []
    decreases |rest|, 1
  {
    hide ParseBase, ParseQuantifier;
    var base := ParseBase(rest).value;
    BaseExtends(rest, tail);
    QuantifierExtends(base.node, base.rest, tail);
  }

  lemma {:induction false} ItemsExtend(rest: seq<byte>, items: seq<Node>, open: bool, tail: seq<byte>)
    requires Starts(tail, RPAREN) && ParseItems(rest, items, open).Ok? && !open
    ensures ParseItems(rest + tail, items, open) == Extended(ParseItems(rest, items, open), tail)
    ensures ParseItems(rest, items, open).value.open ==> ParseItems(rest, items, open).value.rest == []
    decreases |rest|, 2
  {
    hide ParseAtom, Sequence;
    if rest == [] {
      assert rest + tail == tail;
    } else if rest[0] != BAR && rest[0] != RPAREN {
      var item := ParseAtom(rest).value;
      AtomExtends(rest, tail);
      if !item.open {
        ItemsExtend(item.rest, items + [item.node], false, tail);
      }
    }
  }

  lemma {:induction false} AlternativesExtend(rest: seq<byte>, alts: seq<Node>, tail: seq<byte>)
    requires Starts(tail, RPAREN) && ParseAlternatives(rest, alts).Ok?
    ensures ParseAlternatives(rest + tail, alts) == Extended(ParseAlternatives(rest, alts), tail)
    ensures ParseAlternatives(rest, alts).value.open ==> ParseAlternatives(rest, alts).value.rest == []
    decreases |rest|, 3
  {
    hide ParseItems, Choice;
    var node := ParseItems(rest, [], false).value;
    ItemsExtend(rest, [], false, tail);
    if Starts(node.rest, BAR) {
      assert (node.rest + tail)[1..] == node.rest[1..] + tail;
      AlternativesExtend(node.rest[1..], alts + [node.node], tail);
    } else if node.rest == [] {
      assert node.rest + tail == tail;
    }
  }

  // ---------- anchoring a whole pattern ----------

  /** The pattern between `^(` and `)$`. */
  function Anchored(pattern: seq<byte>): seq<byte> {
    [CARET, LPAREN] + pattern + [RPAREN, DOLLAR]
  }

  /** The pattern ends inside a brace form that was never closed. */
  predicate EndsInOpenBrace(pattern: seq<byte>) {
    var r := ParseAlternatives(pattern, []);
    r.Ok? && r.value.open
  }

  function AnchoredNode(node: Node): Node {
    Concat([AnchorStart, node, AnchorEnd])
  }

  predicate NoQuantifier(rest: seq<byte>) {
    !Starts(rest, STAR) && !Starts(rest, PLUS) && !Starts(rest, QUESTION) && !Starts(rest, LBRACE)
  }

  lemma SimpleAtom(c: byte, rest: seq<byte>)
    requires (c == CARET || c == DOLLAR) && NoQuantifier(rest)
    ensures ParseAtom([c] + rest) == Ok(Parsed(if c == CARET then AnchorStart else AnchorEnd, rest, false))
  {
    assert ([c] + rest)[1..] == rest;
  }

  lemma GroupAtom(pattern: seq<byte>, node: Node, rest: seq<byte>)
    requires ParseAlternatives(pattern + ([RPAREN] + rest), []) == Ok(Parsed(node, [RPAREN] + rest, false))
    requires NoQuantifier(rest)
    ensures ParseAtom([LPAREN] + (pattern + ([RPAREN] + rest))) == Ok(Parsed(node, rest, false))
  {
  }

  lemma ItemsStep(rest: seq<byte>, items: seq<Node>, open: bool, item: Node, after: seq<byte>)
    requires rest != [] && rest[0] != BAR && rest[0] != RPAREN && ParseAtom(rest) == Ok(Parsed(item, after, false))
    ensures ParseItems(rest, items, open) == ParseItems(after, items + [item], false)
  {
    hide ParseAtom;
  }

  lemma AnchoredItems(pattern: seq<byte>, node: Node)
    requires ParseAlternatives(pattern + [RPAREN, DOLLAR], []) == Ok(Parsed(node, [RPAREN, DOLLAR], false))
    ensures ParseItems(Anchored(pattern), [], false) == Ok(Parsed(AnchoredNode(node), [], false))
  {
    hide ParseAlternatives, ParseAtom, ParseItems;
    var group := [LPAREN] + (pattern + [RPAREN, DOLLAR]);
    assert Anchored(pattern) == [CARET] + group;
    assert [RPAREN] + [DOLLAR] == [RPAREN, DOLLAR] && [DOLLAR] + [] == [DOLLAR];
    SimpleAtom(CARET, group);
    ItemsStep(Anchored(pattern), [], false, AnchorStart, group);
    GroupAtom(pattern, node, [DOLLAR]);
    ItemsStep(group, [AnchorStart], false, node, [DOLLAR]);
    SimpleAtom(DOLLAR, []);
    ItemsStep([DOLLAR], [AnchorStart, node], false, AnchorEnd, []);
    assert [] + [AnchorStart] == [AnchorStart] && [AnchorStart] + [node] == [AnchorStart, node]
        && [AnchorStart, node] + [AnchorEnd] == [AnchorStart, node, AnchorEnd];
    LastItems([AnchorStart, node, AnchorEnd]);
  }

  lemma LastItems(items: seq<Node>)
    requires |items| > 1
    ensures ParseItems([], items, false) == Ok(Parsed(Concat(items), [], false))
  {
  }

  lemma BrokenItems(pattern: seq<byte>, e: PatternError)
    requires ParseAlternatives(pattern + [RPAREN, DOLLAR], []) == Err(e)
    ensures ParseItems(Anchored(pattern), [], false) == Err(e)
  {
    hide ParseAlternatives;
    var group := [LPAREN] + (pattern + [RPAREN, DOLLAR]);
    assert Anchored(pattern) == [CARET] + group;
    assert group[1..] == pattern + [RPAREN, DOLLAR];
    SimpleAtom(CARET, group);
    ItemsStep(Anchored(pattern), [], false, AnchorStart, group);
    assert ParseBase(group) == Err(e);
    assert ParseAtom(group) == Err(e);
  }

  lemma CompileItems(pattern: seq<byte>)
    ensures ParseItems(pattern, [], false).Err? ==> Compile(pattern) == Err(ParseItems(pattern, [], false).error)
    ensures ParseItems(pattern, [], false).Ok? && ParseItems(pattern, [], false).value.rest == [] ==>
              Compile(pattern) == Ok(ParseItems(pattern, [], false).value.node)
  {
    hide ParseItems;
  }

  /** A pattern that compiles means the same between the anchors, unless it ends inside an
      open brace form; then, and only then, the anchored pattern does not compile. */
  lemma AnchoringCompiles(pattern: seq<byte>)
    requires Compile(pattern).Ok?
    ensures Compile(Anchored(pattern))
            == if EndsInOpenBrace(pattern) then Err(BadBrace) else Ok(AnchoredNode(Compile(pattern).value))
  {
    hide ParseAlternatives, ParseItems;
    var r := ParseAlternatives(pattern, []).value;
    AlternativesExtend(pattern, [], [RPAREN, DOLLAR]);
    CompileItems(Anchored(pattern));
    assert [] + [RPAREN, DOLLAR] == [RPAREN, DOLLAR];
    if r.open {
      BrokenItems(pattern, BadBrace);
    } else {
      AnchoredItems(pattern, r.node);
    }
  }
}
