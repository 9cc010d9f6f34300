/** When the step budget lasts: which patterns never come to an end, how much the others can
    cost, and what that means for the answer (src/fastapi_mojo_rs/src/bridge/regex.rs). */
module RegexBudget {
  import opened RegexMeaning
  import opened RegexCost

  // ---------- repeats that never end ----------

  /** A match from `pos` reaches an unbounded repeat of something that matches nothing there. */
  ghost predicate Drains(node: Node, text: seq<nat>, pos: nat)
    decreases node, 1
  {
    match node
    case Concat(items) =>
      exists n, p :: 0 <= n < |items| && p in PrefixEnds(node, n, text, pos) && Drains(items[n], text, p)
    case Alt(alts) => exists k :: 0 <= k < |alts| && Drains(alts[k], text, pos)
    case Repeat(child, _, max) =>
      || (max == UNBOUNDED && Idles(child, text, pos))
      || exists n: nat, p: nat :: n < max && p in TimesEnds(child, n, text, pos) && Drains(child, text, p)
    case _ => false
  }

  /** Some round of an unbounded repeat reaches a position where one more leads nowhere. */
  ghost predicate Idles(child: Node, text: seq<nat>, pos: nat) {
    exists n: nat, e: nat :: n <= |text| && e in TimesEnds(child, n, text, pos) && Matches(child, text, e, e)
  }

  /** The repeat of an idle child drains the budget. */
  lemma IdleDrains(node: Node, text: seq<nat>, pos: nat)
    requires CanIdle(node, text, pos) && pos <= |text|
    ensures Drains(node, text, pos)
  {
    assert Times(node.child, 0, text, pos, pos);
    assert pos in TimesEnds(node.child, 0, text, pos);
  }

  /** From the round that reaches an idle position on, each round costs a step. */
  lemma {:induction false} IdleRoundsCost(child: Node, n: nat, m: nat, text: seq<nat>, pos: nat, e: nat)
    requires n <= m && e in TimesEnds(child, n, text, pos) && Matches(child, text, e, e)
    ensures LevelsCost(child, m, text, pos) >= m - n && e in TimesEnds(child, m, text, pos)
    decreases m
  {
    hide Matches, Times, CostFrom;
    if n < m {
      IdleRoundsCost(child, n, m - 1, text, pos, e);
      TimesStep(child, m - 1, text, pos, e, e);
      MemberCosts(child, text, TimesEnds(child, m - 1, text, pos), e, |text| + 1);
    }
  }

  lemma {:induction false} MemberCosts(node: Node, text: seq<nat>, from: set<nat>, p: nat, n: nat)
    requires p in from && p < n
    ensures CostFrom(node, text, from, n) >= Cost(node, text, p)
    decreases n
  {
    hide Cost;
    if p < n - 1 {
      MemberCosts(node, text, from, p, n - 1);
    }
  }

  /** Reaching such a repeat costs more than any budget. */
  lemma {:induction false} DrainsCosts(node: Node, text: seq<nat>, pos: nat)
    requires Drains(node, text, pos)
    ensures Cost(node, text, pos) >= UNBOUNDED - |text|
    decreases node
  {
    hide Matches, CostFrom, PrefixEnds, TimesEnds;
    match node
    case Concat(items) =>
      var n, p :| 0 <= n < |items| && p in PrefixEnds(node, n, text, pos) && Drains(items[n], text, p);
      DrainsCosts(items[n], text, p);
      InsidePrefix(node, n, text, pos, p);
      MemberCosts(items[n], text, PrefixEnds(node, n, text, pos), p, |text| + 1);
      ItemsCostGrows(node, n + 1, |items|, text, pos);
    case Alt(alts) =>
      var k :| 0 <= k < |alts| && Drains(alts[k], text, pos);
      DrainsCosts(alts[k], text, pos);
      AltsCostGrows(node, k + 1, |alts|, text, pos);
    case Repeat(child, min, max) =>
      if max == UNBOUNDED && Idles(child, text, pos) {
        IdlesCosts(child, max, text, pos);
      } else {
        var n: nat, p: nat :| n < max && p in TimesEnds(child, n, text, pos) && Drains(child, text, p);
        DrainsCosts(child, text, p);
        InsideTimes(child, n, text, pos, p);
        MemberCosts(child, text, TimesEnds(child, n, text, pos), p, |text| + 1);
        LevelsCostGrows(child, n + 1, max, text, pos);
      }
    case _ =>
  }

  lemma IdlesCosts(child: Node, max: nat, text: seq<nat>, pos: nat)
    requires Idles(child, text, pos)
    ensures LevelsCost(child, max, text, pos) >= max - |text|
  {
    hide Matches, TimesEnds, LevelsCost;
    var n: nat, e: nat :| n <= |text| && e in TimesEnds(child, n, text, pos) && Matches(child, text, e, e);
    if n <= max {
      IdleRoundsCost(child, n, max, text, pos, e);
    }
  }

  lemma InsidePrefix(node: Node, n: nat, text: seq<nat>, pos: nat, p: nat)
    requires node.Concat? && n <= |node.items| && p in PrefixEnds(node, n, text, pos)
    ensures p <= |text|
  {
  }

  lemma InsideTimes(child: Node, n: nat, text: seq<nat>, pos: nat, p: nat)
    requires p in TimesEnds(child, n, text, pos)
    ensures p <= |text|
  {
  }

  // ---------- a condition on the pattern alone ----------

  /** The pattern may match nothing, somewhere in some text. */
  predicate MayBeEmpty(node: Node) {
    match node
    case CharSet(_, _) => false
    case Concat(items) => forall k :: 0 <= k < |items| ==> MayBeEmpty(items[k])
    case Alt(alts) => exists k :: 0 <= k < |alts| && MayBeEmpty(alts[k])
    case Repeat(child, min, _) => min == 0 || MayBeEmpty(child)
    case _ => true
  }

  /** No unbounded repeat of something that may match nothing. */
  predicate Settles(node: Node) {
    match node
    case Concat(items) => forall k :: 0 <= k < |items| ==> Settles(items[k])
    case Alt(alts) => forall k :: 0 <= k < |alts| ==> Settles(alts[k])
    case Repeat(child, _, max) => Settles(child) && (max == UNBOUNDED ==> !MayBeEmpty(child))
    case _ => true
  }

  lemma {:induction false} EmptyMatch(node: Node, text: seq<nat>, p: nat)
    requires Matches(node, text, p, p)
    ensures MayBeEmpty(node)
    decreases node, 1, 0
  {
    match node
    case Concat(items) => EmptyPrefix(node, |items|, text, p);
    case Alt(alts) =>
      var k :| 0 <= k < |alts| && Matches(alts[k], text, p, p);
      EmptyMatch(alts[k], text, p);
    case Repeat(child, min, max) =>
      if min > 0 {
        var n: nat :| InRange(n, min, max) && Times(child, n, text, p, p);
        var k := TimesLast(child, n - 1, text, p, p);
        TimesStayInside(child, n - 1, text, p, k);
        MatchesStayInside(child, text, k, p);
        EmptyMatch(child, text, p);
      }
    case _ =>
  }

  lemma {:induction false} EmptyPrefix(node: Node, n: nat, text: seq<nat>, p: nat)
    requires node.Concat? && n <= |node.items| && p <= |text| && Prefix(node, n, text, p, p)
    ensures forall k :: 0 <= k < n ==> MayBeEmpty(node.items[k])
    decreases node, 0, n
  {
    hide MayBeEmpty, Prefix, Matches;
    if n > 0 {
      var k := PrefixLast(node, n - 1, text, p, p);
      PrefixStaysInside(node, n - 1, text, p, k);
      MatchesStayInside(node.items[n - 1], text, k, p);
      EmptyMatch(node.items[n - 1], text, p);
      EmptyPrefix(node, n - 1, text, p);
    }
  }

  /** Such a pattern never drains the budget, on any text. */
  lemma {:induction false} SettlesNeverDrains(node: Node, text: seq<nat>, pos: nat)
    requires Settles(node)
    ensures !Drains(node, text, pos)
    decreases node
  {
    hide Matches, MayBeEmpty, PrefixEnds, TimesEnds;
    match node
    case Concat(items) =>
      if n, p :| 0 <= n < |items| && p in PrefixEnds(node, n, text, pos) && Drains(items[n], text, p) {
        SettlesNeverDrains(items[n], text, p);
      }
    case Alt(alts) =>
      if k :| 0 <= k < |alts| && Drains(alts[k], text, pos) {
        SettlesNeverDrains(alts[k], text, pos);
      }
    case Repeat(child, _, max) =>
      if max == UNBOUNDED && Idles(child, text, pos) {
        var n: nat, e: nat :| n <= |text| && e in TimesEnds(child, n, text, pos) && Matches(child, text, e, e);
        EmptyMatch(child, text, e);
      } else if n: nat, p: nat :| n < max && p in TimesEnds(child, n, text, pos) && Drains(child, text, p) {
        SettlesNeverDrains(child, text, p);
      }
    case _ =>
  }

  // ---------- the others are bounded ----------

  function Product(a: nat, b: nat): nat {
    a * b
  }

  /** A bound on the steps on a text of m characters, whatever the text. */
  function Bound(node: Node, m: nat): (steps: nat)
    ensures steps > 0
    decreases node, 1, 0
  {
    match node
    case Concat(items) => 1 + Product(m + 1, ItemsBound(node, |items|, m))
    case Alt(alts) => 1 + AltsBound(node, |alts|, m)
    case Repeat(child, _, max) => 1 + Product(Rounds(max, m), Product(m + 1, Bound(child, m)))
    case _ => 1
  }

  function ItemsBound(node: Node, n: nat, m: nat): nat
    requires node.Concat? && n <= |node.items|
    decreases node, 0, n
  {
    if n == 0 then 0 else ItemsBound(node, n - 1, m) + Bound(node.items[n - 1], m)
  }

  function AltsBound(node: Node, n: nat, m: nat): nat
    requires node.Alt? && n <= |node.alts|
    decreases node, 0, n
  {
    if n == 0 then 0 else AltsBound(node, n - 1, m) + Bound(node.alts[n - 1], m)
  }

  /** How many rounds a repeat can go that never idles. */
  function Rounds(max: nat, m: nat): nat {
    if max == UNBOUNDED then m + 1 else max
  }

  lemma Distribute(n: nat, b: nat)
    requires n > 0
    ensures Product(n, b) == Product(n - 1, b) + b
  {
  }

  lemma Spread(n: nat, a: nat, b: nat)
    ensures Product(n, a + b) == Product(n, a) + Product(n, b)
  {
  }

  lemma {:induction false} CostFromBounded(node: Node, text: seq<nat>, from: set<nat>, n: nat, b: nat)
    requires forall p :: p in from && p < n ==> Cost(node, text, p) <= b
    ensures CostFrom(node, text, from, n) <= Product(n, b)
    decreases n
  {
    hide Cost;
    if n > 0 {
      CostFromBounded(node, text, from, n - 1, b);
      Distribute(n, b);
    }
  }

  /** A match that reaches no such repeat stays within the bound. */
  lemma {:induction false} BoundHolds(node: Node, text: seq<nat>, pos: nat)
    requires pos <= |text| && !Drains(node, text, pos)
    ensures Cost(node, text, pos) <= Bound(node, |text|)
    decreases node, 1, 0
  {
    hide ItemsCost, AltsCost, LevelsCost, ItemsBound, AltsBound, Idles, Product;
    match node
    case Concat(items) => ItemsBounded(node, |items|, text, pos);
    case Alt(alts) => AltsBounded(node, |alts|, text, pos);
    case Repeat(child, min, max) =>
      if max == UNBOUNDED {
        assert !Idles(child, text, pos);
        AllMoves(child, text, pos);
        LevelsCostGrows(child, |text| + 1, |text| + 1 + max, text, pos);
        LevelsCostGrows(child, max, |text| + 1 + max, text, pos);
        if |text| + 1 < max {
          LevelsBounded(child, |text| + 1, max, text, pos);
        } else {
          LevelsBounded(child, max, max, text, pos);
          Grows(max, |text| + 1, Product(|text| + 1, Bound(child, |text|)));
        }
      } else {
        LevelsBounded(child, max, max, text, pos);
      }
    case _ =>
  }

  lemma Grows(a: nat, b: nat, c: nat)
    requires a <= b
    ensures Product(a, c) <= Product(b, c)
  {
  }

  lemma {:induction false} ItemsBounded(node: Node, n: nat, text: seq<nat>, pos: nat)
    requires node.Concat? && n <= |node.items| && !Drains(node, text, pos)
    ensures ItemsCost(node, n, text, pos) <= Product(|text| + 1, ItemsBound(node, n, |text|))
    decreases node, 0, n
  {
    hide Cost, CostFrom, Bound, Product, PrefixEnds;
    if n > 0 {
      ItemsBounded(node, n - 1, text, pos);
      var last, from := node.items[n - 1], PrefixEnds(node, n - 1, text, pos);
      forall p | p in from && p < |text| + 1 ensures Cost(last, text, p) <= Bound(last, |text|) {
        BoundHolds(last, text, p);
      }
      CostFromBounded(last, text, from, |text| + 1, Bound(last, |text|));
      Spread(|text| + 1, ItemsBound(node, n - 1, |text|), Bound(last, |text|));
    }
  }

  lemma {:induction false} AltsBounded(node: Node, n: nat, text: seq<nat>, pos: nat)
    requires node.Alt? && n <= |node.alts| && pos <= |text| && !Drains(node, text, pos)
    ensures AltsCost(node, n, text, pos) <= AltsBound(node, n, |text|)
    decreases node, 0, n
  {
    hide Cost, Bound;
    if n > 0 {
      AltsBounded(node, n - 1, text, pos);
      BoundHolds(node.alts[n - 1], text, pos);
    }
  }

  lemma {:induction false} LevelsBounded(child: Node, n: nat, max: nat, text: seq<nat>, pos: nat)
    requires n <= max
    requires forall k: nat, p: nat :: k < max && p in TimesEnds(child, k, text, pos) ==> !Drains(child, text, p)
    ensures LevelsCost(child, n, text, pos) <= Product(n, Product(|text| + 1, Bound(child, |text|)))
    decreases child, 2, n
  {
    hide Cost, CostFrom, Bound, Product, TimesEnds, Drains;
    if n > 0 {
      LevelsBounded(child, n - 1, max, text, pos);
      var from := TimesEnds(child, n - 1, text, pos);
      forall p | p in from && p < |text| + 1 ensures Cost(child, text, p) <= Bound(child, |text|) {
        BoundHolds(child, text, p);
      }
      CostFromBounded(child, text, from, |text| + 1, Bound(child, |text|));
      Distribute(n, Product(|text| + 1, Bound(child, |text|)));
    }
  }

  /** Without an idle position every round moves on. */
  lemma {:induction false} RoundsMove(child: Node, n: nat, text: seq<nat>, pos: nat, e: nat)
    requires !Idles(child, text, pos) && n <= |text| + 1 && e in TimesEnds(child, n, text, pos)
    ensures e >= pos + n
    decreases n
  {
    hide Matches, Times;
    if n > 0 {
      var k := ShorterTimes(child, n - 1, text, pos, e);
      RoundsMove(child, n - 1, text, pos, k);
      MatchesStayInside(child, text, k, e);
    } else {
      assert Times(child, 0, text, pos, e);
      NoRounds(child, text, pos, e);
    }
  }

  lemma NoRounds(child: Node, text: seq<nat>, pos: nat, e: nat)
    requires Times(child, 0, text, pos, e)
    ensures e == pos
  {
  }

  /** So after one round more than there are characters nothing is reached. */
  lemma AllMoves(child: Node, text: seq<nat>, pos: nat)
    requires !Idles(child, text, pos)
    ensures TimesEnds(child, |text| + 1, text, pos) == {}
  {
    if TimesEnds(child, |text| + 1, text, pos) != {} {
      var e :| e in TimesEnds(child, |text| + 1, text, pos);
      RoundsMove(child, |text| + 1, text, pos, e);
    }
  }

  // ---------- what the answer is ----------

  /** The first start at which something matches. */
  ghost predicate FirstMatch(node: Node, text: seq<nat>, s: nat) {
    s <= |text| && MatchesFrom(node, text, s) && forall t: nat :: t < s ==> !MatchesFrom(node, text, t)
  }

  /** The first match is found, or none is. */
  lemma FoundAtFirst(node: Node, text: seq<nat>, s: nat)
    requires FirstMatch(node, text, s)
    ensures Found(node, text) <==> FoundAt(node, text, s)
  {
    hide Finds, MatchesFrom;
    if Found(node, text) && !FoundAt(node, text, s) {
      var t: nat :| FoundAt(node, text, t);
      FindsIsMatch(node, text, t, Left(STEP_BUDGET, StartsCost(node, text, t)));
      NotFoundIsSpent(node, text, s);
      NotAfter(node, text, s + 1);
    }
  }

  /** A match is missed only when the budget does not outlast its start. */
  lemma NotFoundIsSpent(node: Node, text: seq<nat>, s: nat)
    requires s <= |text| && MatchesFrom(node, text, s) && !FoundAt(node, text, s)
    ensures StartsCost(node, text, s + 1) >= 100000
  {
    hide MatchesFrom, FindsAmong;
  }

  lemma {:induction false} FirstExists(node: Node, text: seq<nat>, s: nat) returns (first: nat)
    requires s <= |text| && MatchesFrom(node, text, s)
    ensures FirstMatch(node, text, first)
    decreases s
  {
    hide MatchesFrom;
    if t: nat :| t < s && MatchesFrom(node, text, t) {
      first := FirstExists(node, text, t);
    } else {
      first := s;
    }
  }

  lemma FoundIsMatch(node: Node, text: seq<nat>)
    requires Found(node, text)
    ensures MatchesSomewhere(node, text)
  {
    hide Finds, Matches;
    var s: nat :| FoundAt(node, text, s);
    FindsIsMatch(node, text, s, Left(STEP_BUDGET, StartsCost(node, text, s)));
    var e: nat :| Matches(node, text, s, e);
  }

  lemma SomewhereIsFrom(node: Node, text: seq<nat>)
    ensures MatchesSomewhere(node, text) <==> exists s: nat :: FirstMatch(node, text, s)
  {
    hide Matches;
    if MatchesSomewhere(node, text) {
      var i: nat, j: nat :| Matches(node, text, i, j);
      MatchesStayInside(node, text, i, j);
      var s := FirstExists(node, text, i);
    }
    if s: nat :| FirstMatch(node, text, s) {
      var e: nat :| Matches(node, text, s, e);
    }
  }

  /** The answer is right if and only if, in case something matches, the budget finds the
      first match: what the earlier starts leave is enough at that one. */
  lemma RightIff(node: Node, text: seq<nat>)
    ensures (Found(node, text) <==> MatchesSomewhere(node, text))
            <==> forall s: nat :: FirstMatch(node, text, s) ==> FoundAt(node, text, s)
  {
    hide Found, FoundAt, FirstMatch, MatchesSomewhere;
    SomewhereIsFrom(node, text);
    if Found(node, text) {
      FoundIsMatch(node, text);
    }
    forall s: nat | FirstMatch(node, text, s) ensures Found(node, text) <==> FoundAt(node, text, s) {
      FoundAtFirst(node, text, s);
    }
  }

  /** For a sequence or a repeat the condition is that the steps up to and including that
      start stay below the budget; for alternatives this is enough. */
  lemma FoundAtIff(node: Node, text: seq<nat>, s: nat)
    requires s <= |text| && MatchesFrom(node, text, s)
    ensures StartsCost(node, text, s + 1) < 100000 ==> FoundAt(node, text, s)
    ensures (node.Concat? && node.items != []) || (node.Repeat? && node.max > 0) ==>
              (FoundAt(node, text, s) <==> StartsCost(node, text, s + 1) < 100000)
  {
    hide MatchesFrom, FindsAmong;
  }

  /** No start reaches a repeat that never ends, and the bound on the steps stays below the
      budget.  Bound and the length can be computed from the pattern and the text. */
  ghost predicate Affordable(node: Node, text: seq<nat>) {
    && (forall s: nat :: s <= |text| ==> !Drains(node, text, s))
    && Product(|text| + 1, Bound(node, |text|)) < STEP_BUDGET
  }

  /** Both conditions can be checked before the call. */
  lemma SettledIsAffordable(node: Node, text: seq<nat>)
    requires Settles(node) && Product(|text| + 1, Bound(node, |text|)) < 100000
    ensures Affordable(node, text)
  {
    hide Settles, Drains, Bound, Product;
    forall s: nat | s <= |text| ensures !Drains(node, text, s) {
      SettlesNeverDrains(node, text, s);
    }
  }

  lemma {:induction false} StartsBounded(node: Node, text: seq<nat>, n: nat)
    requires n <= |text| + 1 && forall s: nat :: s <= |text| ==> !Drains(node, text, s)
    ensures StartsCost(node, text, n) <= Product(n, Bound(node, |text|))
    decreases n
  {
    hide Cost, Bound, Drains, Product;
    if n > 0 {
      StartsBounded(node, text, n - 1);
      BoundHolds(node, text, n - 1);
      Distribute(n, Bound(node, |text|));
    }
  }

  /** Then the answer is exact. */
  lemma AffordableIsRight(node: Node, text: seq<nat>)
    requires Affordable(node, text)
    ensures Found(node, text) <==> MatchesSomewhere(node, text)
  {
    hide Found, FoundAt, MatchesSomewhere, MatchesFrom, Drains, Bound, Product;
    forall s: nat | FirstMatch(node, text, s) ensures FoundAt(node, text, s) {
      StartsBounded(node, text, |text| + 1);
      StartsCostGrows(node, text, s + 1, |text| + 1);
      FoundAtIff(node, text, s);
    }
    RightIff(node, text);
  }

  /** A sequence or a repeat that reaches a repeat that never ends, at the first match or
      before it, is missed although it matches. */
  lemma DrainedIsMissed(node: Node, text: seq<nat>, s: nat, t: nat)
    requires |text| < UNBOUNDED - STEP_BUDGET && FirstMatch(node, text, s) && t <= s && Drains(node, text, t)
    requires (node.Concat? && node.items != []) || (node.Repeat? && node.max > 0)
    ensures MatchesSomewhere(node, text) && !Found(node, text)
  {
    hide Found, FoundAt, Matches, Drains, Cost;
    DrainsCosts(node, text, t);
    StartsCostGrows(node, text, t + 1, s + 1);
    FoundAtIff(node, text, s);
    FoundAtFirst(node, text, s);
    SomewhereIsFrom(node, text);
  }
}
