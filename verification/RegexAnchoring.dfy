/** What anchoring does to a pattern that does not compile on its own
    (src/fastapi_mojo_rs/src/bridge/regex.rs). */
module RegexAnchoring {
  import opened Wrappers
  import opened Bits
  import opened Decimals
  import opened RegexMeaning
  import opened RegexParser

  /** What the anchors put behind the pattern. */
  const CLOSING: seq<byte> := [RPAREN, DOLLAR]

  // ---------- an error stays an error ----------

  /** Nothing is left but what the closing parenthesis leaves when it was used up. */
  predicate Late(r: Result<Parsed, PatternError>) {
    r.Ok? ==> r.value.rest == [] || r.value.rest == [DOLLAR]
  }

  /** Nothing is left at all. */
  predicate Spent(r: Result<Parsed, PatternError>) {
    r.Ok? ==> r.value.rest == []
  }

  lemma {:induction false} BracesStayBad(rest: seq<byte>, nums: seq<nat>)
    requires ParseBraces(rest, nums).Err?
    ensures ParseBraces(rest + CLOSING, nums).Err?
    decreases |rest|
  {
    hide DecimalValue;
    var all := rest + CLOSING;
    if rest == [] {
      assert all == CLOSING;
    } else if IsDigit(rest[0]) {
      var n := DigitRun(rest);
      DigitRunExtends(rest, CLOSING);
      assert all[..n] == rest[..n] && all[n..] == rest[n..] + CLOSING;
      if DecimalValue(rest[..n]) <= UNBOUNDED {
        BracesStayBad(rest[n..], nums + [DecimalValue(rest[..n])]);
      }
    } else {
      assert all[1..] == rest[1..] + CLOSING;
      if rest[0] == COMMA && |nums| == 1 {
        if StartsWithDigit(rest[1..]) {
          BracesStayBad(rest[1..], nums);
        }
      }
    }
  }

  lemma QuantifierStaysBad(base: Node, rest: seq<byte>)
    requires ParseQuantifier(base, rest).Err?
    ensures ParseQuantifier(base, rest + CLOSING).Err?
  {
    hide ParseBraces;
    assert (rest + CLOSING)[1..] == rest[1..] + CLOSING;
    BracesStayBad(rest[1..], []);
  }

  lemma MemberAtEnd(rest: seq<byte>)
    requires rest != [] && ParseMember(rest).Err?
    ensures ParseMember(rest + CLOSING).Ok? ==> ParseMember(rest + CLOSING).value.rest == [DOLLAR]
  {
  }

  lemma MemberLeaves(rest: seq<byte>)
    requires rest != [] && ParseMember(rest).Ok? && RBRACKET !in rest
    ensures RBRACKET !in ParseMember(rest).value.rest
  {
  }

  /** A class needs its closing bracket. */
  lemma {:induction false} Unclosed(rest: seq<byte>, chars: set<nat>, any: bool, negated: bool)
    requires RBRACKET !in rest
    ensures ParseMembers(rest, chars, any, negated).Err?
    decreases |rest|
  {
    hide ParseMember;
    if rest != [] && ParseMember(rest).Ok? {
      var m := ParseMember(rest).value;
      MemberLeaves(rest);
      Unclosed(m.rest, chars + m.chars, true, negated);
    }
  }

  lemma {:induction false} MembersStayBad(rest: seq<byte>, chars: set<nat>, any: bool, negated: bool)
    requires ParseMembers(rest, chars, any, negated).Err?
    ensures ParseMembers(rest + CLOSING, chars, any, negated).Err?
    decreases |rest|
  {
    hide ParseMember;
    var all := rest + CLOSING;
    if rest == [] {
      assert all == CLOSING;
      Unclosed(CLOSING, chars, any, negated);
    } else if rest[0] != RBRACKET {
      if ParseMember(rest).Ok? {
        var m := ParseMember(rest).value;
        MemberExtends(rest, CLOSING);
        MembersStayBad(m.rest, chars + m.chars, true, negated);
      } else {
        MemberAtEnd(rest);
        if ParseMember(all).Ok? {
          Unclosed([DOLLAR], chars + ParseMember(all).value.chars, true, negated);
        }
      }
    }
  }

  lemma ClassStaysBad(rest: seq<byte>)
    requires ParseClass(rest).Err?
    ensures ParseClass(rest + CLOSING).Err?
  {
    hide ParseMembers;
    var negated := Starts(rest, CARET);
    assert negated ==> (rest + CLOSING)[1..] == rest[1..] + CLOSING;
    MembersStayBad(if negated then rest[1..] else rest, {}, false, negated);
  }

  lemma EscapeAtEnd(rest: seq<byte>)
    requires ParseEscape(rest).Err?
    ensures Late(ParseEscape(rest + CLOSING))
  {
  }

  /** Parsing stops at the end or at a character that ends a group. */
  lemma {:induction false} ItemsStop(rest: seq<byte>, items: seq<Node>, open: bool)
    requires ParseItems(rest, items, open).Ok?
    ensures var after := ParseItems(rest, items, open).value.rest; after == [] || after[0] == BAR || after[0] == RPAREN
    decreases |rest|
  {
    hide ParseAtom, Sequence;
    if rest != [] && rest[0] != BAR && rest[0] != RPAREN {
      var item := ParseAtom(rest).value;
      ItemsStop(item.rest, items + [item.node], item.open);
    }
  }

  lemma {:induction false} AlternativesStop(rest: seq<byte>, alts: seq<Node>)
    requires ParseAlternatives(rest, alts).Ok?
    ensures ParseAlternatives(rest, alts).value.rest == [] || Starts(ParseAlternatives(rest, alts).value.rest, RPAREN)
    decreases |rest|
  {
    hide ParseItems, Choice;
    var node := ParseItems(rest, [], false).value;
    ItemsStop(rest, [], false);
    if Starts(node.rest, BAR) {
      AlternativesStop(node.rest[1..], alts + [node.node]);
    }
  }

  lemma {:induction false} BaseAtEnd(rest: seq<byte>)
    requires rest != [] && ParseBase(rest).Err?
    ensures Late(ParseBase(rest + CLOSING))
    decreases |rest|, 0
  {
    hide ParseClass, ParseEscape, ParseAlternatives;
    var c, after := rest[0], rest[1..];
    assert (rest + CLOSING)[1..] == after + CLOSING && (rest + CLOSING)[0] == c;
    if c == LPAREN {
      if ParseAlternatives(after, []).Err? {
        AlternativesStayBad(after, []);
      } else {
        AlternativesStop(after, []);
        AlternativesExtend(after, [], CLOSING);
        assert [] + CLOSING == CLOSING && CLOSING[1..] == [DOLLAR];
      }
    } else if c == LBRACKET {
      ClassStaysBad(after);
    } else if c == BACKSLASH {
      EscapeAtEnd(after);
    }
  }

  lemma {:induction false} AtomAtEnd(rest: seq<byte>)
    requires rest != [] && ParseAtom(rest).Err?
    ensures Late(ParseAtom(rest + CLOSING))
    decreases |rest|, 1
  {
    hide ParseBase, ParseBraces;
    if ParseBase(rest).Err? {
      BaseAtEnd(rest);
    } else {
      var base := ParseBase(rest).value;
      BaseExtends(rest, CLOSING);
      QuantifierStaysBad(base.node, base.rest);
    }
  }

  /** The last character is read as an anchor. */
  lemma LastDollar(items: seq<Node>, open: bool)
    ensures Spent(ParseItems([DOLLAR], items, open))
  {
  }

  lemma {:induction false} ItemsStayBad(rest: seq<byte>, items: seq<Node>, open: bool)
    requires ParseItems(rest, items, open).Err?
    ensures Spent(ParseItems(rest + CLOSING, items, open))
    decreases |rest|, 2
  {
    hide ParseAtom, Sequence;
    var all := rest + CLOSING;
    if ParseAtom(rest).Err? {
      AtomAtEnd(rest);
      if ParseAtom(all).Ok? {
        var item := ParseAtom(all).value;
        if item.rest == [DOLLAR] {
          LastDollar(items + [item.node], item.open);
        }
      }
    } else {
      var item := ParseAtom(rest).value;
      AtomExtends(rest, CLOSING);
      if !item.open {
        ItemsStayBad(item.rest, items + [item.node], item.open);
      }
    }
  }

  /** What fails on its own fails in front of the closing anchors, or takes their parenthesis
      and leaves nothing. */
  lemma {:induction false} AlternativesStayBad(rest: seq<byte>, alts: seq<Node>)
    requires ParseAlternatives(rest, alts).Err?
    ensures Spent(ParseAlternatives(rest + CLOSING, alts))
    decreases |rest|, 3
  {
    hide ParseItems, Choice;
    if ParseItems(rest, [], false).Err? {
      ItemsStayBad(rest, [], false);
    } else {
      var node := ParseItems(rest, [], false).value;
      ItemsExtend(rest, [], false, CLOSING);
      assert (node.rest + CLOSING)[1..] == node.rest[1..] + CLOSING;
      AlternativesStayBad(node.rest[1..], alts + [node.node]);
    }
  }

  // ---------- whether a parse goes on does not depend on what was read before ----------

  predicate SameShape(a: Result<Parsed, PatternError>, b: Result<Parsed, PatternError>) {
    if a.Ok? then b.Ok? && a.value.rest == b.value.rest && a.value.open == b.value.open else b.Err?
  }

  lemma {:induction false} ItemsShape(rest: seq<byte>, a: seq<Node>, b: seq<Node>, open: bool)
    ensures SameShape(ParseItems(rest, a, open), ParseItems(rest, b, open))
    decreases |rest|
  {
    hide ParseAtom, Sequence;
    if rest != [] && rest[0] != BAR && rest[0] != RPAREN && ParseAtom(rest).Ok? {
      var item := ParseAtom(rest).value;
      ItemsShape(item.rest, a + [item.node], b + [item.node], item.open);
    }
  }

  lemma {:induction false} AlternativesShape(rest: seq<byte>, a: seq<Node>, b: seq<Node>)
    ensures SameShape(ParseAlternatives(rest, a), ParseAlternatives(rest, b))
    decreases |rest|
  {
    hide ParseItems, Choice;
    if ParseItems(rest, [], false).Ok? {
      var node := ParseItems(rest, [], false).value;
      if Starts(node.rest, BAR) {
        AlternativesShape(node.rest[1..], a + [node.node], b + [node.node]);
      }
    }
  }

  /** Patterns whose items go on alike compile alike. */
  lemma CompileShape(a: seq<byte>, b: seq<byte>)
    requires SameShape(ParseItems(a, [], false), ParseItems(b, [], false))
    ensures Compile(a).Ok? <==> Compile(b).Ok?
  {
    hide ParseItems, Choice;
    if ParseItems(a, [], false).Ok? {
      var x, y := ParseItems(a, [], false).value, ParseItems(b, [], false).value;
      if Starts(x.rest, BAR) {
        AlternativesShape(x.rest[1..], [] + [x.node], [] + [y.node]);
      }
    }
  }

  // ---------- which patterns only compile anchored ----------

  /** The pattern closes the anchors' group itself, and what follows its parenthesis compiles
      behind any atom, here a dot. */
  predicate RepairedByAnchors(pattern: seq<byte>) {
    var r := ParseAlternatives(pattern, []);
    r.Ok? && Starts(r.value.rest, RPAREN) && Compile([DOT] + r.value.rest[1..] + CLOSING).Ok?
  }

  lemma GroupItems(pattern: seq<byte>)
    ensures ParseItems(Anchored(pattern), [], false) == ParseItems([LPAREN] + (pattern + CLOSING), [AnchorStart], false)
  {
    hide ParseItems, ParseAtom;
    var group := [LPAREN] + (pattern + CLOSING);
    assert Anchored(pattern) == [CARET] + group && [] + [AnchorStart] == [AnchorStart];
    SimpleAtom(CARET, group);
    ItemsStep(Anchored(pattern), [], false, AnchorStart, group);
  }

  /** A pattern that fails to parse fails between the anchors. */
  lemma BrokenStaysBroken(pattern: seq<byte>)
    requires ParseAlternatives(pattern, []).Err?
    ensures Compile(Anchored(pattern)).Err?
  {
    hide ParseAlternatives, Anchored;
    var group := [LPAREN] + (pattern + CLOSING);
    GroupItems(pattern);
    AlternativesStayBad(pattern, []);
    assert group[1..] == pattern + CLOSING;
    assert ParseAtom(group).Err?;
    CompileItems(Anchored(pattern));
  }

  /** After the parenthesis that closes the group, the anchored pattern goes on as behind a dot. */
  lemma ClosedEarly(pattern: seq<byte>)
    requires ParseAlternatives(pattern, []).Ok? && Starts(ParseAlternatives(pattern, []).value.rest, RPAREN)
    ensures var r := ParseAlternatives(pattern, []).value.rest[1..];
            SameShape(ParseItems(Anchored(pattern), [], false), ParseItems([DOT] + r + CLOSING, [], false))
  {
    hide ParseAlternatives, ParseBraces, Anchored, DotSet, ParseItems;
    var parsed := ParseAlternatives(pattern, []).value;
    var r := parsed.rest[1..];
    var group, dotted := [LPAREN] + (pattern + CLOSING), [DOT] + r + CLOSING;
    GroupItems(pattern);
    AlternativesExtend(pattern, [], CLOSING);
    assert group[1..] == pattern + CLOSING && dotted[1..] == r + CLOSING;
    assert (parsed.rest + CLOSING)[1..] == r + CLOSING;
    assert ParseAtom(group) == ParseQuantifier(parsed.node, r + CLOSING);
    var dot := CharSet(DotSet(), false);
    assert ParseAtom(dotted) == ParseQuantifier(dot, r + CLOSING);
    AfterAtom(group, [AnchorStart]);
    AfterAtom(dotted, []);
    if ParseQuantifier(dot, r + CLOSING).Ok? {
      var q, p := ParseQuantifier(dot, r + CLOSING).value, ParseQuantifier(parsed.node, r + CLOSING).value;
      ItemsShape(q.rest, [AnchorStart] + [p.node], [] + [q.node], q.open);
    }
  }

  lemma AfterAtom(rest: seq<byte>, items: seq<Node>)
    requires rest != [] && rest[0] != BAR && rest[0] != RPAREN
    ensures ParseAtom(rest).Err? ==> ParseItems(rest, items, false).Err?
    ensures ParseAtom(rest).Ok? ==>
              var item := ParseAtom(rest).value;
              ParseItems(rest, items, false) == ParseItems(item.rest, items + [item.node], item.open)
  {
    hide ParseAtom;
  }

  /** A pattern that does not compile on its own compiles between the anchors if and only if
      it closes their group itself and goes on with something that compiles behind it. */
  lemma AnchoringRepairsIff(pattern: seq<byte>)
    requires Compile(pattern).Err?
    ensures Compile(Anchored(pattern)).Ok? <==> RepairedByAnchors(pattern)
  {
    hide ParseAlternatives, ParseItems, Anchored, SameShape;
    if ParseAlternatives(pattern, []).Err? {
      BrokenStaysBroken(pattern);
    } else {
      AlternativesStop(pattern, []);
      var r := ParseAlternatives(pattern, []).value.rest[1..];
      ClosedEarly(pattern);
      CompileShape(Anchored(pattern), [DOT] + r + CLOSING);
    }
  }
}
