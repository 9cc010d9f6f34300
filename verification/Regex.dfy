/** The regular expression engine as the source runs it: a parser with a cursor, and the two
    entry points (src/fastapi_mojo_rs/src/bridge/regex.rs). */
module Regex {
  import opened Wrappers
  import opened Bits
  import opened Decimals
  import opened RegexMeaning
  import opened RegexCost
  import opened RegexBudget
  import opened RegexCaps
  import opened RegexMatcher
  import opened RegexParser
  import opened RegexAnchoring

  class Parser {
    const s: seq<byte>
    var i: nat
    /** The last piece read ended in an open brace form. */
    ghost var open: bool

    ghost predicate Valid()
      reads this
    {
      i <= |s|
    }

    /** What is still to be read. */
    ghost function Rest(): seq<byte>
      requires Valid()
      reads this
    {
      s[i..]
    }

    constructor (s: seq<byte>)
      ensures Valid() && this.s == s && Rest() == s && !open
    {
      this.s, i, open := s, 0, false;
      new;
      assert s[0..] == s;
    }

    predicate At(c: byte)
      requires Valid()
      reads this
      ensures At(c) <==> Starts(Rest(), c)
    {
      i < |s| && s[i] == c
    }

    method Bump()
      requires Valid() && i < |s|
      modifies this`i
      ensures Valid() && i == old(i) + 1 && Rest() == old(Rest())[1..]
    {
      i := i + 1;
    }

    /** Inserts every character from lo to hi. */
    static method AddRange(chars: set<nat>, lo: nat, hi: nat) returns (r: set<nat>)
      ensures r == chars + Span(lo, hi)
    {
      r := chars;
      var v := lo;
      while v <= hi
        invariant lo <= v && (lo <= hi ==> v <= hi + 1) && r == chars + (set u: nat | lo <= u < v && Between(u, lo, hi))
      {
        r := r + {v};
        v := v + 1;
      }
    }

    method Digits() returns (value: nat)
      requires Valid() && StartsWithDigit(Rest())
      modifies this`i
      ensures Valid() && old(i) < i && Rest() == old(Rest())[DigitRun(old(Rest()))..]
      ensures value == DecimalValue(old(Rest())[..DigitRun(old(Rest()))])
    {
      hide DecimalValue;
      ghost var rest := Rest();
      var start := i;
      while i < |s| && IsDigit(s[i])
        invariant start <= i <= |s| && DigitRun(rest) == (i - start) + DigitRun(s[i..])
      {
        assert s[i..][1..] == s[i + 1..];
        i := i + 1;
      }
      assert s[start..i] == rest[..i - start];
      value := DecimalValue(s[start..i]);
    }

    method ParseBraceForm() returns (r: Result<(nat, nat), PatternError>)
      requires Valid()
      modifies this
      ensures Valid()
      ensures ParseBraces(old(Rest()), [])
              == if r.Ok? then Ok(Bounds(r.value.0, r.value.1, Rest(), open)) else Err(r.error)
    {
      hide DecimalValue, DigitRun;
      var nums: seq<nat> := [];
      open := true;
      while i < |s|
        invariant Valid() && open && ParseBraces(old(Rest()), []) == ParseBraces(Rest(), nums)
        decreases |s| - i
      {
        ghost var rest := Rest();
        if IsDigit(s[i]) {
          var value := Digits();
          if value > UNBOUNDED {
            return Err(BraceOverflow);
          }
          nums := nums + [value];
        } else if s[i] == COMMA && |nums| == 1 {
          Bump();
          if !(i < |s| && IsDigit(s[i])) {
            if At(RBRACE) {
              Bump();
              open := false;
              assert Rest() == rest[2..];
              return Ok((nums[0], UNBOUNDED));
            }
            return Err(BadBrace);
          }
        } else if s[i] == RBRACE {
          Bump();
          open := false;
          break;
        } else {
          return Err(BadBrace);
        }
      }
      if |nums| == 1 {
        return Ok((nums[0], nums[0]));
      }
      if |nums| == 2 {
        if nums[0] > nums[1] {
          return Err(BraceOrder);
        }
        return Ok((nums[0], nums[1]));
      }
      return Err(BadBrace);
    }

    method ParseQuantifier(base: Node) returns (r: Result<Node, PatternError>)
      requires Valid()
      modifies this
      ensures Valid()
      ensures RegexParser.ParseQuantifier(base, old(Rest()))
              == if r.Ok? then Ok(Parsed(r.value, Rest(), open)) else Err(r.error)
    {
      hide ParseBraces;
      open := false;
      if At(STAR) {
        Bump();
        return Ok(Repeat(base, 0, UNBOUNDED));
      }
      if At(PLUS) {
        Bump();
        return Ok(Repeat(base, 1, UNBOUNDED));
      }
      if At(QUESTION) {
        Bump();
        return Ok(Repeat(base, 0, 1));
      }
      if At(LBRACE) {
        Bump();
        var bounds := ParseBraceForm();
        if bounds.Err? {
          return Err(bounds.error);
        }
        return Ok(Repeat(base, bounds.value.0, bounds.value.1));
      }
      return Ok(base);
    }

    // ---------- classes and escapes ----------

    /** An escape, after its backslash. */
    method ParseClassEscape() returns (r: Result<set<nat>, PatternError>)
      requires Valid()
      modifies this`i
      ensures Valid() && old(i) <= i && (r.Ok? ==> old(i) < i)
      ensures RegexParser.ParseClassEscape(old(Rest())) == if r.Ok? then Ok(Class(r.value, Rest())) else Err(r.error)
    {
      hide ClassEscape, CharEscape;
      if i >= |s| {
        return Err(TrailingBackslash);
      }
      var e := s[i];
      Bump();
      if ClassEscape(e).Some? {
        return Ok(ClassEscape(e).value);
      }
      var c := CharEscape(e);
      if c.Err? {
        return Err(c.error);
      }
      return Ok({c.value});
    }

    /** The member of a class that starts with `lo`, already read. */
    method ParseMemberFrom(lo: byte) returns (r: Result<set<nat>, PatternError>)
      requires Valid() && i > 0 && s[i - 1] == lo
      modifies this`i
      ensures Valid() && old(i) <= i
      ensures ParseMember(old(s[i - 1..])) == if r.Ok? then Ok(Class(r.value, Rest())) else Err(r.error)
    {
      hide RegexParser.ParseClassEscape, Span;
      ghost var rest := s[i - 1..];
      assert rest[1..] == Rest() && rest[0] == lo;
      if lo == BACKSLASH {
        r := ParseClassEscape();
        return;
      }
      if At(DASH) && !(i + 1 < |s| && s[i + 1] == RBRACKET) {
        Bump();
        if i >= |s| {
          return Err(DanglingDash);
        }
        var hi := s[i];
        Bump();
        assert Rest() == rest[1..][2..];
        if hi == BACKSLASH {
          r := ParseClassEscape();
          return;
        }
        if lo > hi {
          return Err(InvertedRange);
        }
        var chars := AddRange({}, lo, hi);
        assert {} + Span(lo, hi) == Span(lo, hi);
        return Ok(chars);
      }
      return Ok({lo as nat});
    }

    method ParseClass() returns (r: Result<Node, PatternError>)
      requires Valid()
      modifies this
      ensures Valid()
      ensures RegexParser.ParseClass(old(Rest())) == if r.Ok? then Ok(Parsed(r.value, Rest(), open)) else Err(r.error)
    {
      hide ParseMember;
      open := false;
      var negated := At(CARET);
      if negated {
        Bump();
      }
      ghost var members := Rest();
      var chars: set<nat> := {};
      var any := false;
      while true
        invariant Valid() && !open
        invariant ParseMembers(members, {}, false, negated) == ParseMembers(Rest(), chars, any, negated)
        decreases |s| - i
      {
        if i >= |s| {
          return Err(UnterminatedClass);
        }
        var c := s[i];
        Bump();
        if c == RBRACKET {
          if !any && !negated {
            return Err(EmptyClass);
          }
          return Ok(CharSet(chars, negated));
        }
        any := true;
        var more := ParseMemberFrom(c);
        if more.Err? {
          return Err(more.error);
        }
        chars := chars + more.value;
      }
    }

    method ParseEscape() returns (r: Result<Node, PatternError>)
      requires Valid()
      modifies this
      ensures Valid()
      ensures RegexParser.ParseEscape(old(Rest())) == if r.Ok? then Ok(Parsed(r.value, Rest(), open)) else Err(r.error)
    {
      hide RegexParser.ParseClassEscape;
      open := false;
      if At(LETTER_B) {
        Bump();
        return Ok(WordBoundary);
      }
      var chars := ParseClassEscape();
      if chars.Err? {
        return Err(chars.error);
      }
      return Ok(CharSet(chars.value, false));
    }

    // ---------- atoms, concatenations, alternatives ----------

    method ParseBase() returns (r: Result<Node, PatternError>)
      requires Valid() && i < |s|
      modifies this
      ensures Valid() && (r.Ok? ==> old(i) < i)
      ensures RegexParser.ParseBase(old(Rest())) == if r.Ok? then Ok(Parsed(r.value, Rest(), open)) else Err(r.error)
      decreases |s| - i, 0
    {
      hide RegexParser.ParseClass, RegexParser.ParseEscape, DotSet, ParseAlternatives;
      var c := s[i];
      Bump();
      open := false;
      if c == CARET {
        return Ok(AnchorStart);
      } else if c == DOLLAR {
        return Ok(AnchorEnd);
      } else if c == DOT {
        return Ok(CharSet(DotSet(), false));
      } else if c == LPAREN {
        r := ParseGroup();
        if r.Err? {
          return;
        }
        if !At(RPAREN) {
          return Err(UnbalancedParen);
        }
        Bump();
        open := false;
      } else if c == LBRACKET {
        r := ParseClass();
      } else if c == BACKSLASH {
        r := ParseEscape();
      } else if c == LBRACE {
        return Err(DanglingBrace);
      } else {
        return Ok(CharSet({c as nat}, false));
      }
    }

    method ParseAtom() returns (r: Result<Node, PatternError>)
      requires Valid() && i < |s|
      modifies this
      ensures Valid() && (r.Ok? ==> old(i) < i)
      ensures RegexParser.ParseAtom(old(Rest())) == if r.Ok? then Ok(Parsed(r.value, Rest(), open)) else Err(r.error)
      decreases |s| - i, 1
    {
      hide RegexParser.ParseBase, RegexParser.ParseQuantifier;
      var base := ParseBase();
      if base.Err? {
        return Err(base.error);
      }
      r := ParseQuantifier(base.value);
    }

    method ParseConcat() returns (r: Result<Node, PatternError>)
      requires Valid()
      modifies this
      ensures Valid() && (r.Ok? ==> old(i) <= i)
      ensures ParseItems(old(Rest()), [], false) == if r.Ok? then Ok(Parsed(r.value, Rest(), open)) else Err(r.error)
      decreases |s| - i, 2
    {
      hide RegexParser.ParseAtom;
      var items: seq<Node> := [];
      open := false;
      while i < |s| && s[i] != BAR && s[i] != RPAREN
        invariant Valid() && old(i) <= i
        invariant ParseItems(old(Rest()), [], false) == ParseItems(Rest(), items, open)
        decreases |s| - i
      {
        var item := ParseAtom();
        if item.Err? {
          return Err(item.error);
        }
        items := items + [item.value];
      }
      if items == [] {
        return Ok(Empty);
      } else if |items| == 1 {
        return Ok(items[0]);
      } else {
        return Ok(Concat(items));
      }
    }

    method ParseGroup() returns (r: Result<Node, PatternError>)
      requires Valid()
      modifies this
      ensures Valid() && (r.Ok? ==> old(i) <= i)
      ensures ParseAlternatives(old(Rest()), []) == if r.Ok? then Ok(Parsed(r.value, Rest(), open)) else Err(r.error)
      decreases |s| - i, 3
    {
      hide ParseItems;
      var alts: seq<Node> := [];
      while true
        invariant Valid() && old(i) <= i
        invariant ParseAlternatives(old(Rest()), []) == ParseAlternatives(Rest(), alts)
        decreases |s| - i
      {
        var node := ParseConcat();
        if node.Err? {
          return Err(node.error);
        }
        alts := alts + [node.value];
        if At(BAR) {
          Bump();
          continue;
        }
        break;
      }
      if |alts| == 1 {
        return Ok(alts[0]);
      } else {
        return Ok(Alt(alts));
      }
    }

    method Parse() returns (r: Result<Node, PatternError>)
      requires Valid() && i == 0
      modifies this
      ensures Valid() && r == Compile(s)
    {
      hide ParseAlternatives;
      assert Rest() == s;
      r := ParseGroup();
      if r.Ok? && i < |s| {
        return Err(TrailingInput);
      }
    }
  }

  // ---------- the entry points ----------

  /** Bytes as character codes. */
  function Codes(text: seq<byte>): (codes: seq<nat>)
    ensures |codes| == |text| && forall i :: 0 <= i < |text| ==> codes[i] == text[i]
  {
    seq(|text|, i requires 0 <= i < |text| => text[i] as nat)
  }

  /** 1 for a match anywhere, 0 for none found, -1 for a pattern that does not compile.  A 1
      is always right, and found within the caps.  On a text with room for the pattern the
      answer is right exactly when the budget finds the first match, which it does for every
      affordable pattern. */
  method RgxMatch(pattern: seq<byte>, text: seq<byte>) returns (r: int)
    ensures r == -1 <==> Compile(pattern).Err?
    ensures r == -1 || r == 0 || r == 1
    ensures r == 1 ==> MatchesSomewhere(Compile(pattern).value, Codes(text))
    ensures r == 1 ==> MatchesSomewhere(Capped(Compile(pattern).value), Codes(text))
    ensures Compile(pattern).Ok? && Roomy(Compile(pattern).value, Codes(text)) ==>
              (r == 1 <==> Found(Compile(pattern).value, Codes(text)))
    ensures Compile(pattern).Ok? && Roomy(Compile(pattern).value, Codes(text)) ==>
              var node := Compile(pattern).value;
              (r == 1 <==> MatchesSomewhere(node, Codes(text)))
              <==> forall s: nat :: FirstMatch(node, Codes(text), s) ==> FoundAt(node, Codes(text), s)
    ensures Compile(pattern).Ok? && Roomy(Compile(pattern).value, Codes(text))
            && Affordable(Compile(pattern).value, Codes(text)) ==>
              (r == 1 <==> MatchesSomewhere(Compile(pattern).value, Codes(text)))
  {
    hide Compile, MatchesSomewhere, Found, FirstMatch, FoundAt, Affordable, Roomy, Capped;
    var parser := new Parser(pattern);
    var node := parser.Parse();
    if node.Err? {
      return -1;
    }
    var hit, left := Search(node.value, Codes(text));
    r := if hit then 1 else 0;
    if hit {
      CappedSomewhere(node.value, Codes(text));
    }
    RightIff(node.value, Codes(text));
    if Affordable(node.value, Codes(text)) {
      AffordableIsRight(node.value, Codes(text));
    }
  }

  lemma CappedSomewhere(node: Node, text: seq<nat>)
    requires MatchesSomewhere(Capped(node), text)
    ensures MatchesSomewhere(node, text)
  {
    hide Matches;
    var i: nat, j: nat :| Matches(Capped(node), text, i, j);
    CappedMatches(node, text, i, j);
  }

  /** The whole text matches, or all of it but a final newline. */
  ghost predicate MatchesWhole(node: Node, text: seq<nat>) {
    || Matches(node, text, 0, |text|)
    || (text != [] && text[|text| - 1] == NEWLINE && Matches(node, text, 0, |text| - 1))
  }

  lemma AnchoredUnfolds(node: Node, text: seq<nat>, i: nat, j: nat)
    requires Matches(AnchoredNode(node), text, i, j)
    ensures i == 0 && Matches(node, text, 0, j) && j <= |text| && AtEnd(text, j)
  {
    var all := AnchoredNode(node);
    var k := PrefixLast(all, 2, text, i, j);
    var m := PrefixLast(all, 1, text, i, k);
    var n := PrefixLast(all, 0, text, i, m);
  }

  lemma AnchoredFolds(node: Node, text: seq<nat>, j: nat)
    requires Matches(node, text, 0, j) && j <= |text| && AtEnd(text, j)
    ensures Matches(AnchoredNode(node), text, 0, j)
  {
    var all := AnchoredNode(node);
    assert Prefix(all, 0, text, 0, 0) && Matches(all.items[0], text, 0, 0);
    assert Prefix(all, 1, text, 0, 0) && Matches(all.items[1], text, 0, j);
    assert Prefix(all, 2, text, 0, j) && Matches(all.items[2], text, j, j);
    assert Prefix(all, 3, text, 0, j);
  }

  /** Finding the anchored node anywhere is matching the whole text. */
  lemma AnchoredMeansWhole(node: Node, text: seq<nat>)
    ensures MatchesSomewhere(AnchoredNode(node), text) <==> MatchesWhole(node, text)
  {
    if MatchesSomewhere(AnchoredNode(node), text) {
      var i: nat, j: nat :| Matches(AnchoredNode(node), text, i, j);
      AnchoredUnfolds(node, text, i, j);
    }
    if MatchesWhole(node, text) {
      var j := if Matches(node, text, 0, |text|) then |text| else |text| - 1;
      AnchoredFolds(node, text, j);
    }
  }

  /** An anchored node takes a few steps more than the node itself. */
  lemma AnchoredCost(node: Node, text: seq<nat>)
    ensures var steps := Cost(AnchoredNode(node), text, 0);
            Cost(node, text, 0) + 2 <= steps <= Cost(node, text, 0) + |text| + 3
  {
    var all := AnchoredNode(node);
    assert PrefixEnds(all, 0, text, 0) == {0};
    AnchorFirst(all, text);
    OnlyZero(AnchorStart, text);
    OnlyZero(node, text);
    CostFromBounded(AnchorEnd, text, PrefixEnds(all, 2, text, 0), |text| + 1, 1);
    assert ItemsCost(all, 1, text, 0) == 1;
    assert ItemsCost(all, 2, text, 0) == 1 + Cost(node, text, 0);
  }

  lemma AnchorFirst(all: Node, text: seq<nat>)
    requires all.Concat? && |all.items| > 0 && all.items[0] == AnchorStart
    ensures PrefixEnds(all, 1, text, 0) == {0}
  {
    assert Prefix(all, 0, text, 0, 0) && Matches(all.items[0], text, 0, 0);
    PrefixStep(all, 0, text, 0, 0, 0);
    forall e | e in PrefixEnds(all, 1, text, 0) ensures e == 0 {
      var k := PrefixLast(all, 0, text, 0, e);
    }
  }

  lemma OnlyZero(node: Node, text: seq<nat>)
    ensures CostFrom(node, text, {0}, |text| + 1) == Cost(node, text, 0)
  {
    CostFromNone(node, text, |text| + 1);
    CostFromAdd(node, text, {}, 0, |text| + 1);
    assert {} + {0} == {0};
  }

  lemma AnchoredIsSequence(node: Node)
    ensures AnchoredNode(node).Concat? && AnchoredNode(node).items != []
  {
  }

  /** The anchored node is found exactly if the whole text matches within the budget. */
  lemma AnchoredFound(node: Node, text: seq<nat>)
    ensures Found(AnchoredNode(node), text)
            <==> MatchesWhole(node, text) && Cost(AnchoredNode(node), text, 0) < 100000
  {
    hide Found, FoundAt, MatchesSomewhere, MatchesWhole, Cost, AnchoredNode;
    var all := AnchoredNode(node);
    AnchoredIsSequence(node);
    AnchoredMeansWhole(node, text);
    if MatchesWhole(node, text) {
      AnchoredFirst(node, text);
      FoundAtFirst(all, text, 0);
      FoundAtIff(all, text, 0);
      assert StartsCost(all, text, 1) == Cost(all, text, 0);
    } else if Found(all, text) {
      FoundIsMatch(all, text);
    }
  }

  lemma AnchoredFirst(node: Node, text: seq<nat>)
    requires MatchesSomewhere(AnchoredNode(node), text)
    ensures FirstMatch(AnchoredNode(node), text, 0) && MatchesFrom(AnchoredNode(node), text, 0)
  {
    hide Matches, AnchoredNode;
    var i: nat, j: nat :| Matches(AnchoredNode(node), text, i, j);
    AnchoredUnfolds(node, text, i, j);
  }

  /** A match of the whole text.  For a pattern that compiles on its own the answer is -1
      exactly if it ends in an open brace form, and otherwise, on a text with room,
      1 exactly if the whole text matches within the budget.  For a pattern that does not compile the
      answer is -1 unless the anchors repair it. */
  method RgxFullmatch(pattern: seq<byte>, text: seq<byte>) returns (r: int)
    ensures Compile(pattern).Ok? ==> (r == -1 <==> EndsInOpenBrace(pattern))
    ensures Compile(pattern).Err? ==> (r == -1 <==> !RepairedByAnchors(pattern))
    ensures Compile(Anchored(pattern)).Ok? && Roomy(Compile(Anchored(pattern)).value, Codes(text)) ==>
              (r == 1 <==> Found(Compile(Anchored(pattern)).value, Codes(text)))
    ensures Compile(pattern).Ok? && r == 1 ==> MatchesWhole(Compile(pattern).value, Codes(text))
    ensures Compile(pattern).Ok? && r == 1 ==> MatchesWhole(Capped(Compile(pattern).value), Codes(text))
    ensures Compile(pattern).Ok? && !EndsInOpenBrace(pattern) && Roomy(Compile(pattern).value, Codes(text)) ==>
              var node := Compile(pattern).value;
              r == 1 <==> MatchesWhole(node, Codes(text)) && Cost(AnchoredNode(node), Codes(text), 0) < 100000
    ensures Compile(pattern).Ok? && !EndsInOpenBrace(pattern) && Roomy(Compile(pattern).value, Codes(text))
            && !Drains(Compile(pattern).value, Codes(text), 0)
            && Bound(Compile(pattern).value, |text|) + |text| + 3 < STEP_BUDGET ==>
              (r == 1 <==> MatchesWhole(Compile(pattern).value, Codes(text)))
  {
    hide Compile, MatchesSomewhere, MatchesWhole, Anchored, EndsInOpenBrace, AnchoredNode, Found, Cost, Drains, Bound,
         Affordable, FirstMatch, FoundAt, RepairedByAnchors, Roomy, Capped;
    if Compile(pattern).Ok? {
      var node := Compile(pattern).value;
      AnchoredMeansWhole(Capped(node), Codes(text));
      AnchoredIsCapped(node);
      if Roomy(node, Codes(text)) {
        AnchoredIsRoomy(node, Codes(text));
      }
      AnchoringCompiles(pattern);
      AnchoredMeansWhole(node, Codes(text));
      AnchoredFound(node, Codes(text));
      AnchoredCost(node, Codes(text));
      if !Drains(node, Codes(text), 0) {
        BoundHolds(node, Codes(text), 0);
      }
    } else {
      AnchoringRepairsIff(pattern);
    }
    r := RgxMatch(Anchored(pattern), text);
  }

  lemma AnchoredIsCapped(node: Node)
    ensures Capped(AnchoredNode(node)) == AnchoredNode(Capped(node))
  {
    var all, capped := AnchoredNode(node), Capped(AnchoredNode(node));
    assert capped.items == [Capped(all.items[0]), Capped(all.items[1]), Capped(all.items[2])];
  }

  /** The anchors need no room of their own. */
  lemma AnchoredIsRoomy(node: Node, text: seq<nat>)
    requires Roomy(node, text)
    ensures Roomy(AnchoredNode(node), text)
  {
    var all := AnchoredNode(node);
    forall k, p: nat | 0 < k <= 3 && p <= |text| ensures |PrefixEnds(all, k, text, p)| <= POS_CAP {
      hide Prefix, Matches;
      var ends := if k == 1 then {0} else MatchEnds(node, text, 0);
      RoomyEnds(node, text, 0);
      forall e | e in PrefixEnds(all, k, text, p) ensures e in ends {
        AnchoredPrefix(node, k, text, p, e);
      }
      Subset(PrefixEnds(all, k, text, p), ends);
    }
  }

  lemma AnchoredPrefix(node: Node, k: nat, text: seq<nat>, p: nat, e: nat)
    requires 0 < k <= 3 && Prefix(AnchoredNode(node), k, text, p, e)
    ensures if k == 1 then e == 0 else Matches(node, text, 0, e)
  {
    var all := AnchoredNode(node);
    var q := PrefixLast(all, k - 1, text, p, e);
    if k == 1 {
      assert all.items[0] == AnchorStart;
    } else {
      AnchoredPrefix(node, k - 1, text, p, q);
    }
  }

  // ---------- a repeat that is cut short ----------

  const RUN: Node := Concat([Repeat(CharSet({97}, false), 0, UNBOUNDED), CharSet({98}, false)])

  function RunText(n: nat): seq<byte> {
    seq(n, i requires 0 <= i < n => LETTER_A) + [LETTER_B]
  }

  /** `a*b` matches any number of `a` and a `b`, but from 1024 on no whole match is within
      the caps. */
  lemma LongRunIsMissed(n: nat)
    ensures Compile([LETTER_A, STAR, LETTER_B]) == Ok(RUN)
    ensures MatchesWhole(RUN, Codes(RunText(n)))
    ensures MatchesWhole(Capped(RUN), Codes(RunText(n))) <==> n < 1024
  {
    hide MatchesWhole;
    RunCompiles();
    CappedRun();
    WholeRun(UNBOUNDED, n);
    WholeRun(POS_CAP - 1, n);
  }

  function RunUpTo(max: nat): Node {
    Concat([Repeat(CharSet({97}, false), 0, max), CharSet({98}, false)])
  }

  lemma CappedRun()
    ensures Capped(RUN) == RunUpTo(POS_CAP - 1) && RUN == RunUpTo(UNBOUNDED)
  {
    assert Capped(RUN).items == [Capped(RUN.items[0]), Capped(RUN.items[1])];
  }

  lemma {:induction false} LetterTimes(n: nat, text: seq<nat>)
    requires n <= |text| && forall i :: 0 <= i < n ==> text[i] == 97
    ensures Times(CharSet({97}, false), n, text, 0, n)
  {
    if n > 0 {
      LetterTimes(n - 1, text);
      TimesStep(CharSet({97}, false), n - 1, text, 0, n - 1, n);
    }
  }

  /** Up to max letters are matched with the one behind them if and only if n is no more. */
  lemma WholeRun(max: nat, n: nat)
    ensures MatchesWhole(RunUpTo(max), Codes(RunText(n))) <==> InRange(n, 0, max)
  {
    var node, text := RunUpTo(max), Codes(RunText(n));
    var a := CharSet({97}, false);
    if InRange(n, 0, max) {
      LetterTimes(n, text);
      assert Prefix(node, 0, text, 0, 0);
      assert Matches(node.items[0], text, 0, n);
      PrefixStep(node, 0, text, 0, 0, n);
      PrefixStep(node, 1, text, 0, n, n + 1);
    }
    if MatchesWhole(node, text) {
      assert text[n] == 98;
      var k := PrefixLast(node, 1, text, 0, n + 1);
      var z := PrefixLast(node, 0, text, 0, k);
      var m: nat :| InRange(m, 0, max) && Times(a, m, text, 0, k);
      CharTimes(a, m, text, 0, k);
    }
  }

  lemma RunCompiles()
    ensures Compile([LETTER_A, STAR, LETTER_B]) == Ok(RUN)
  {
    hide ParseAlternatives, ParseItems;
    var star := Repeat(CharSet({97}, false), 0, UNBOUNDED);
    var pattern := [LETTER_A, STAR, LETTER_B];
    assert pattern[1..] == [STAR, LETTER_B] && [STAR, LETTER_B][1..] == [LETTER_B] && [LETTER_B][1..] == [];
    assert ParseAtom(pattern) == Ok(Parsed(star, [LETTER_B], false));
    ItemsStep(pattern, [], false, star, [LETTER_B]);
    assert ParseAtom([LETTER_B]) == Ok(Parsed(CharSet({98}, false), [], false));
    ItemsStep([LETTER_B], [star], false, CharSet({98}, false), []);
    assert [] + [star] == [star] && [star] + [CharSet({98}, false)] == [star, CharSet({98}, false)];
    TwoItems([star, CharSet({98}, false)], []);
    CompileItems(pattern);
  }

  // ---------- a repeat that never ends ----------

  /** `(a*)*` matches every text, at its very start, but is found in no short one. */
  lemma NestedStarIsMissed(text: seq<byte>)
    requires |text| < 1024
    ensures var pattern := [LPAREN, LETTER_A, STAR, RPAREN, STAR];
            && Compile(pattern).Ok?
            && MatchesSomewhere(Compile(pattern).value, Codes(text))
            && !Found(Compile(pattern).value, Codes(text))
  {
    var star := Repeat(CharSet({97}, false), 0, UNBOUNDED);
    var node := Repeat(star, 0, UNBOUNDED);
    NestedStarCompiles();
    NothingMatches(CharSet({97}, false), Codes(text));
    NothingMatches(star, Codes(text));
    IdleDrains(node, Codes(text), 0);
    DrainedIsMissed(node, Codes(text), 0, 0);
  }

  lemma NothingMatches(child: Node, text: seq<nat>)
    ensures Matches(Repeat(child, 0, UNBOUNDED), text, 0, 0)
  {
    assert InRange(0, 0, UNBOUNDED) && Times(child, 0, text, 0, 0);
  }

  lemma NestedStarCompiles()
    ensures Compile([LPAREN, LETTER_A, STAR, RPAREN, STAR])
            == Ok(Repeat(Repeat(CharSet({97}, false), 0, UNBOUNDED), 0, UNBOUNDED))
  {
    hide ParseAlternatives, ParseItems;
    var a := CharSet({97}, false);
    var star := Repeat(a, 0, UNBOUNDED);
    var pattern := [LPAREN, LETTER_A, STAR, RPAREN, STAR];
    var inner := [LETTER_A, STAR, RPAREN, STAR];
    assert pattern[1..] == inner && inner[1..] == [STAR, RPAREN, STAR] && [STAR, RPAREN, STAR][1..] == [RPAREN, STAR];
    assert [RPAREN, STAR][1..] == [STAR] && [STAR][1..] == [];
    assert ParseAtom(inner) == Ok(Parsed(star, [RPAREN, STAR], false));
    ItemsStep(inner, [], false, star, [RPAREN, STAR]);
    OneItem(star, [RPAREN, STAR]);
    OneAlternative(inner, star, [RPAREN, STAR]);
    assert ParseAtom(pattern) == Ok(Parsed(Repeat(star, 0, UNBOUNDED), [], false));
    ItemsStep(pattern, [], false, Repeat(star, 0, UNBOUNDED), []);
    OneItem(Repeat(star, 0, UNBOUNDED), []);
    CompileItems(pattern);
  }

  lemma OneAlternative(rest: seq<byte>, node: Node, after: seq<byte>)
    requires ParseItems(rest, [], false) == Ok(Parsed(node, after, false)) && !Starts(after, BAR)
    ensures ParseAlternatives(rest, []) == Ok(Parsed(node, after, false))
  {
    hide ParseItems;
  }

  lemma OneItem(item: Node, rest: seq<byte>)
    requires rest == [] || rest[0] == RPAREN
    ensures ParseItems(rest, [] + [item], false) == Ok(Parsed(item, rest, false))
  {
  }

  // ---------- where anchoring changes what compiles ----------

  const LETTER_A: byte := 97
  const DIGIT_3: byte := 51

  lemma LetterAtom(c: byte, rest: seq<byte>)
    requires LETTER_A <= c <= LETTER_B && NoQuantifier(rest)
    ensures ParseAtom([c] + rest) == Ok(Parsed(CharSet({c as nat}, false), rest, false))
  {
    assert ([c] + rest)[1..] == rest;
  }

  lemma OneLetter(c: byte, rest: seq<byte>)
    requires LETTER_A <= c <= LETTER_B && Starts(rest, RPAREN)
    ensures ParseAlternatives([c] + rest, []) == Ok(Parsed(CharSet({c as nat}, false), rest, false))
  {
    hide ParseAtom;
    LetterAtom(c, rest);
    ItemsStep([c] + rest, [], false, CharSet({c as nat}, false), rest);
  }

  /** `a{3` compiles on its own, but not between the anchors. */
  lemma OpenBraceDisagrees()
    ensures Compile([LETTER_A, LBRACE, DIGIT_3]) == Ok(Repeat(CharSet({97}, false), 3, 3))
    ensures Compile(Anchored([LETTER_A, LBRACE, DIGIT_3])) == Err(BadBrace)
  {
    var pattern := [LETTER_A, LBRACE, DIGIT_3];
    assert pattern[1..] == [LBRACE, DIGIT_3] && pattern[1..][1..] == [DIGIT_3];
    assert [DIGIT_3][1..] == [] && [DIGIT_3][..1] == [DIGIT_3] && [DIGIT_3][..0] == [];
    assert DigitRun([DIGIT_3]) == 1 && DecimalValue([DIGIT_3]) == 3;
    assert ParseBraces([DIGIT_3], []) == Ok(Bounds(3, 3, [], true));
    assert ParseBase(pattern) == Ok(Parsed(CharSet({97}, false), [LBRACE, DIGIT_3], false));
    assert ParseAtom(pattern) == Ok(Parsed(Repeat(CharSet({97}, false), 3, 3), [], true));
    assert ParseItems(pattern, [], false) == ParseItems([], [Repeat(CharSet({97}, false), 3, 3)], true);
    AnchoringCompiles(pattern);
  }

  /** `a)(b` does not compile, but between the anchors it does. */
  lemma CrossedGroupsDisagree()
    ensures Compile([LETTER_A, RPAREN, LPAREN, LETTER_B]) == Err(TrailingInput)
    ensures Compile(Anchored([LETTER_A, RPAREN, LPAREN, LETTER_B]))
            == Ok(Concat([AnchorStart, CharSet({97}, false), CharSet({98}, false), AnchorEnd]))
  {
    hide ParseAlternatives, ParseAtom, ParseItems;
    var a, b := CharSet({97}, false), CharSet({98}, false);
    var tail := [RPAREN, LPAREN, LETTER_B];
    assert [LETTER_A] + tail == [LETTER_A, RPAREN, LPAREN, LETTER_B];
    OneLetter(LETTER_A, tail);
    var second := [LPAREN, LETTER_B, RPAREN, DOLLAR];
    var first := [LPAREN, LETTER_A, RPAREN] + second;
    var all := Anchored([LETTER_A, RPAREN, LPAREN, LETTER_B]);
    assert all == [CARET] + first;
    assert first == [LPAREN] + ([LETTER_A] + ([RPAREN] + second))
        && second == [LPAREN] + ([LETTER_B] + ([RPAREN] + [DOLLAR]));
    OneLetter(LETTER_A, [RPAREN] + second);
    OneLetter(LETTER_B, [RPAREN] + [DOLLAR]);
    SimpleAtom(CARET, first);
    ItemsStep(all, [], false, AnchorStart, first);
    GroupAtom([LETTER_A], a, second);
    ItemsStep(first, [AnchorStart], false, a, second);
    GroupAtom([LETTER_B], b, [DOLLAR]);
    ItemsStep(second, [AnchorStart, a], false, b, [DOLLAR]);
    SimpleAtom(DOLLAR, []);
    assert [DOLLAR] + [] == [DOLLAR];
    ItemsStep([DOLLAR], [AnchorStart, a, b], false, AnchorEnd, []);
    assert [] + [AnchorStart] == [AnchorStart] && [AnchorStart] + [a] == [AnchorStart, a]
        && [AnchorStart, a] + [b] == [AnchorStart, a, b]
            && [AnchorStart, a, b] + [AnchorEnd] == [AnchorStart, a, b, AnchorEnd];
    LastItems([AnchorStart, a, b, AnchorEnd]);
    CompileItems(all);
  }

  /** `a)|(b` does not compile either; between the anchors it becomes a choice of what starts
      with `a` and what ends in `b`. */
  lemma CrossedAlternativesDisagree()
    ensures Compile([LETTER_A, RPAREN, BAR, LPAREN, LETTER_B]) == Err(TrailingInput)
    ensures Compile(Anchored([LETTER_A, RPAREN, BAR, LPAREN, LETTER_B]))
            == Ok(Alt([Concat([AnchorStart, CharSet({97}, false)]), Concat([CharSet({98}, false), AnchorEnd])]))
  {
    hide ParseAlternatives, ParseAtom, ParseItems;
    var a, b := CharSet({97}, false), CharSet({98}, false);
    var tail := [RPAREN, BAR, LPAREN, LETTER_B];
    assert [LETTER_A] + tail == [LETTER_A, RPAREN, BAR, LPAREN, LETTER_B];
    OneLetter(LETTER_A, tail);
    var second := [LPAREN, LETTER_B, RPAREN, DOLLAR];
    var first := [LPAREN, LETTER_A, RPAREN] + ([BAR] + second);
    var all := Anchored([LETTER_A, RPAREN, BAR, LPAREN, LETTER_B]);
    assert all == [CARET] + first;
    assert first == [LPAREN] + ([LETTER_A] + ([RPAREN] + ([BAR] + second)));
    assert second == [LPAREN] + ([LETTER_B] + ([RPAREN] + [DOLLAR]));
    OneLetter(LETTER_A, [RPAREN] + ([BAR] + second));
    OneLetter(LETTER_B, [RPAREN] + [DOLLAR]);
    SimpleAtom(CARET, first);
    ItemsStep(all, [], false, AnchorStart, first);
    GroupAtom([LETTER_A], a, [BAR] + second);
    ItemsStep(first, [AnchorStart], false, a, [BAR] + second);
    GroupAtom([LETTER_B], b, [DOLLAR]);
    ItemsStep(second, [], false, b, [DOLLAR]);
    SimpleAtom(DOLLAR, []);
    assert [DOLLAR] + [] == [DOLLAR];
    ItemsStep([DOLLAR], [b], false, AnchorEnd, []);
    assert [] + [AnchorStart] == [AnchorStart] && [AnchorStart] + [a] == [AnchorStart, a]
        && [] + [b] == [b] && [b] + [AnchorEnd] == [b, AnchorEnd] && ([BAR] + second)[1..] == second;
    TwoItems([AnchorStart, a], [BAR] + second);
    TwoItems([b, AnchorEnd], []);
    TwoAlternatives(all, Concat([AnchorStart, a]), second, Concat([b, AnchorEnd]));
  }

  lemma TwoItems(items: seq<Node>, rest: seq<byte>)
    requires |items| == 2 && (rest == [] || rest[0] == BAR)
    ensures ParseItems(rest, items, false) == Ok(Parsed(Concat(items), rest, false))
  {
  }

  lemma TwoAlternatives(pattern: seq<byte>, x: Node, second: seq<byte>, y: Node)
    requires ParseItems(pattern, [], false) == Ok(Parsed(x, [BAR] + second, false))
    requires ParseItems(second, [], false) == Ok(Parsed(y, [], false))
    ensures Compile(pattern) == Ok(Alt([x, y]))
  {
    hide ParseItems;
    assert ([BAR] + second)[1..] == second && [] + [x] == [x] && [x] + [y] == [x, y];
    assert ParseAlternatives(second, [x]) == Ok(Parsed(Alt([x, y]), [], false));
  }

  // ---------- a bracket at the start of a class ----------

  /** A pattern such as `[]a]` is refused whatever follows; `[^]` compiles to a class that
      every character matches. */
  lemma ClosedClassIsRefused(rest: seq<byte>)
    ensures Compile([LBRACKET, RBRACKET] + rest) == Err(EmptyClass)
    ensures Compile([LBRACKET, CARET, RBRACKET]) == Ok(CharSet({}, true))
    ensures forall c: nat :: Matches(CharSet({}, true), [c], 0, 1)
  {
    hide ParseClass, ParseItems;
    var pattern := [LBRACKET, RBRACKET] + rest;
    assert pattern[1..] == [RBRACKET] + rest;
    EmptyClassIff([RBRACKET] + rest);
    AfterAtom(pattern, []);
    CompileItems(pattern);
    RefusedAtom(pattern, [], EmptyClass);
    var negated := [LBRACKET, CARET, RBRACKET];
    assert negated[1..] == [CARET, RBRACKET] + [];
    EmptyClassIff([]);
    ItemsStep(negated, [], false, CharSet({}, true), []);
    OneItem(CharSet({}, true), []);
    CompileItems(negated);
  }

  lemma RefusedAtom(rest: seq<byte>, items: seq<Node>, e: PatternError)
    requires rest != [] && rest[0] != BAR && rest[0] != RPAREN && ParseAtom(rest) == Err(e)
    ensures ParseItems(rest, items, false) == Err(e)
  {
    hide ParseAtom;
  }
}
