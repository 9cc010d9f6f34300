/** Regular expressions: the abstract syntax and what a pattern matches
    (src/fastapi_mojo_rs/src/bridge/regex.rs). */
module RegexMeaning {
  const STEP_BUDGET: nat := 100000
  const POS_CAP: nat := 1024
  /** The upper bound of a repeat without one. */
  const UNBOUNDED: nat := 0xffff_ffff
  const NEWLINE: nat := 10

  datatype Node =
    | CharSet(chars: set<nat>, negated: bool)
    | WordBoundary
    | AnchorStart
    | AnchorEnd
    | Empty
    | Concat(items: seq<Node>)
    | Alt(alts: seq<Node>)
    | Repeat(child: Node, min: nat, max: nat)

  predicate IsWordChar(c: nat) {
    48 <= c <= 57 || 65 <= c <= 90 || c == 95 || 97 <= c <= 122
  }

  predicate AtBoundary(text: seq<nat>, pos: nat)
    requires pos <= |text|
  {
    (pos > 0 && IsWordChar(text[pos - 1])) != (pos < |text| && IsWordChar(text[pos]))
  }

  /** The end of the text, or just before its final newline. */
  predicate AtEnd(text: seq<nat>, pos: nat)
    requires pos <= |text|
  {
    pos == |text| || (pos + 1 == |text| && text[pos] == NEWLINE)
  }

  // ---------- meaning ----------

  /** The node matches the text from i to j. */
  ghost predicate Matches(node: Node, text: seq<nat>, i: nat, j: nat)
    decreases node, 1, 0
  {
    i <= |text|
    && match node
       case CharSet(chars, negated) => i < |text| && j == i + 1 && (text[i] in chars) != negated
       case WordBoundary => j == i && AtBoundary(text, i)
       case AnchorStart => j == i && i == 0
       case AnchorEnd => j == i && AtEnd(text, i)
       case Empty => j == i
       case Concat(items) => Prefix(node, |items|, text, i, j)
       case Alt(alts) => exists k :: 0 <= k < |alts| && Matches(alts[k], text, i, j)
       case Repeat(child, min, max) => exists n: nat :: InRange(n, min, max) && Times(child, n, text, i, j)
  }

  predicate InRange(n: nat, min: nat, max: nat) {
    min <= n && (max == UNBOUNDED || n <= max)
  }

  /** The first n items of a concatenation, one after the other. */
  ghost predicate Prefix(node: Node, n: nat, text: seq<nat>, i: nat, j: nat)
    requires node.Concat? && n <= |node.items|
    decreases node, 0, n
  {
    if n == 0 then i == j
    else
      var last := node.items[n - 1];
      exists k: nat :: Prefix(node, n - 1, text, i, k) && Matches(last, text, k, j)
  }

  /** n matches of the node, one after the other. */
  ghost predicate Times(node: Node, n: nat, text: seq<nat>, i: nat, j: nat)
    decreases node, 2, n
  {
    if n == 0 then i == j
    else exists k: nat :: Times(node, n - 1, text, i, k) && Matches(node, text, k, j)
  }

  /** Matches move forward and stay inside the text. */
  lemma {:induction false} MatchesStayInside(node: Node, text: seq<nat>, i: nat, j: nat)
    requires Matches(node, text, i, j)
    ensures i <= j <= |text|
    decreases node, 1, 0
  {
    match node
    case Concat(items) => PrefixStaysInside(node, |items|, text, i, j);
    case Alt(alts) =>
      var k :| 0 <= k < |alts| && Matches(alts[k], text, i, j);
      MatchesStayInside(alts[k], text, i, j);
    case Repeat(child, min, max) =>
      var n: nat :| InRange(n, min, max) && Times(child, n, text, i, j);
      TimesStayInside(child, n, text, i, j);
    case _ =>
  }

  lemma {:induction false} PrefixStaysInside(node: Node, n: nat, text: seq<nat>, i: nat, j: nat)
    requires node.Concat? && n <= |node.items| && i <= |text| && Prefix(node, n, text, i, j)
    ensures i <= j <= |text|
    decreases node, 0, n
  {
    if n > 0 {
      var k: nat :| Prefix(node, n - 1, text, i, k) && Matches(node.items[n - 1], text, k, j);
      PrefixStaysInside(node, n - 1, text, i, k);
      MatchesStayInside(node.items[n - 1], text, k, j);
    }
  }

  lemma {:induction false} TimesStayInside(node: Node, n: nat, text: seq<nat>, i: nat, j: nat)
    requires i <= |text| && Times(node, n, text, i, j)
    ensures i <= j <= |text|
    decreases node, 2, n
  {
    if n > 0 {
      var k: nat :| Times(node, n - 1, text, i, k) && Matches(node, text, k, j);
      TimesStayInside(node, n - 1, text, i, k);
      MatchesStayInside(node, text, k, j);
    }
  }

  ghost predicate MatchesSomewhere(node: Node, text: seq<nat>) {
    exists i: nat, j: nat :: Matches(node, text, i, j)
  }

  // ---------- one step more ----------

  lemma PrefixStep(node: Node, n: nat, text: seq<nat>, i: nat, k: nat, j: nat)
    requires node.Concat? && n < |node.items| && Prefix(node, n, text, i, k) && Matches(node.items[n], text, k, j)
    ensures Prefix(node, n + 1, text, i, j)
  {
  }

  lemma PrefixLast(node: Node, n: nat, text: seq<nat>, i: nat, j: nat) returns (k: nat)
    requires node.Concat? && n < |node.items| && Prefix(node, n + 1, text, i, j)
    ensures Prefix(node, n, text, i, k) && Matches(node.items[n], text, k, j)
  {
    k :| Prefix(node, n, text, i, k) && Matches(node.items[n], text, k, j);
  }

  lemma TimesLast(node: Node, n: nat, text: seq<nat>, i: nat, j: nat) returns (k: nat)
    requires Times(node, n + 1, text, i, j)
    ensures Times(node, n, text, i, k) && Matches(node, text, k, j)
  {
    k :| Times(node, n + 1 - 1, text, i, k) && Matches(node, text, k, j);
  }

  lemma TimesStep(node: Node, n: nat, text: seq<nat>, i: nat, k: nat, j: nat)
    requires Times(node, n, text, i, k) && Matches(node, text, k, j)
    ensures Times(node, n + 1, text, i, j)
  {
  }

  /** When no match of the first n items exists, the concatenation has none either. */
  lemma {:induction false} DeadPrefix(node: Node, n: nat, text: seq<nat>, i: nat)
    requires node.Concat? && n <= |node.items| && forall e: nat :: !Prefix(node, n, text, i, e)
    ensures forall e: nat :: !Prefix(node, |node.items|, text, i, e)
    decreases |node.items| - n
  {
    if n < |node.items| {
      DeadPrefix(node, n + 1, text, i);
    }
  }

  lemma {:induction false} FewerTimes(node: Node, n: nat, m: nat, text: seq<nat>, i: nat, e: nat)
    requires n <= m && Times(node, m, text, i, e)
    ensures exists j: nat :: Times(node, n, text, i, j)
    decreases m
  {
    if n < m {
      var k: nat :| Times(node, m - 1, text, i, k) && Matches(node, text, k, e);
      FewerTimes(node, n, m - 1, text, i, k);
    }
  }

  /** When n matches in a row cannot be had, neither can more. */
  lemma DeadTimes(node: Node, n: nat, text: seq<nat>, i: nat)
    requires forall e: nat :: !Times(node, n, text, i, e)
    ensures forall m: nat, e: nat :: n <= m ==> !Times(node, m, text, i, e)
  {
    forall m: nat, e: nat | n <= m ensures !Times(node, m, text, i, e) {
      if Times(node, m, text, i, e) {
        FewerTimes(node, n, m, text, i, e);
        assert false;
      }
    }
  }

  /** One of the first k alternatives matches. */
  ghost predicate AnyOf(node: Node, k: nat, text: seq<nat>, i: nat, j: nat)
    requires node.Alt? && k <= |node.alts|
  {
    exists m :: 0 <= m < k && Matches(node.alts[m], text, i, j)
  }

  lemma AnyOfGrows(node: Node, k: nat, text: seq<nat>, i: nat)
    requires node.Alt? && k < |node.alts|
    ensures forall j: nat ::
              AnyOf(node, k + 1, text, i, j)
              <==> AnyOf(node, k, text, i, j) || Matches(node.alts[k], text, i, j)
  {
    hide Matches;
  }

  lemma AnyOfMatches(node: Node, k: nat, text: seq<nat>, i: nat)
    requires node.Alt? && k <= |node.alts| && i <= |text|
    ensures forall j: nat :: AnyOf(node, k, text, i, j) ==> Matches(node, text, i, j)
    ensures k == |node.alts| ==> forall j: nat :: Matches(node, text, i, j) ==> AnyOf(node, k, text, i, j)
  {
  }

  lemma NoAlternatives(node: Node, text: seq<nat>, i: nat)
    requires node.Alt?
    ensures forall j: nat :: !AnyOf(node, 0, text, i, j)
  {
  }

  // ---------- repeats that do not move ----------

  /** An unbounded repeat of something that can match nothing here. */
  ghost predicate CanIdle(node: Node, text: seq<nat>, pos: nat) {
    node.Repeat? && node.max == UNBOUNDED && Matches(node.child, text, pos, pos)
  }

  lemma {:induction false} IdleTimes(node: Node, n: nat, text: seq<nat>, pos: nat)
    requires Matches(node, text, pos, pos)
    ensures Times(node, n, text, pos, pos)
  {
    if n > 0 {
      IdleTimes(node, n - 1, text, pos);
    }
  }

  /** Such a repeat does match, without moving. */
  lemma IdleMatches(node: Node, text: seq<nat>, pos: nat)
    requires CanIdle(node, text, pos)
    ensures Matches(node, text, pos, pos)
  {
    IdleTimes(node.child, node.min, text, pos);
    assert InRange(node.min, node.min, node.max);
  }
}
