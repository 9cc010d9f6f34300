/** Regular expressions: the budgeted matcher
    (src/fastapi_mojo_rs/src/bridge/regex.rs). */
module RegexMatcher {
  import opened RegexMeaning
  import opened RegexCost
  import opened RegexCaps

  // ---------- sets of positions ----------

  /** Every end is a real match, and one within the caps. */
  ghost predicate Sound(node: Node, text: seq<nat>, pos: nat, ends: set<nat>) {
    forall e :: e in ends ==> Matches(Capped(node), text, pos, e)
  }

  /** Every match is among the ends. */
  ghost predicate Whole(node: Node, text: seq<nat>, pos: nat, ends: set<nat>) {
    forall e: nat :: Matches(node, text, pos, e) ==> e in ends
  }

  predicate Inside(ends: set<nat>, text: seq<nat>) {
    forall e :: e in ends ==> e <= |text|
  }

  /** Adds positions while there is room. */
  method AddCapped(next: set<nat>, ends: set<nat>) returns (r: set<nat>)
    requires |next| <= POS_CAP
    ensures next <= r <= next + ends && |r| <= POS_CAP
    ensures |next + ends| <= POS_CAP ==> r == next + ends
  {
    r := next;
    var todo := ends;
    while todo != {}
      invariant todo <= ends && next <= r <= next + ends && |r| <= POS_CAP
      invariant |next + ends| <= POS_CAP ==> r + todo == next + ends
      decreases todo
    {
      var e :| e in todo;
      todo := todo - {e};
      if |r| < POS_CAP {
        r := r + {e};
      } else if |next + ends| <= POS_CAP {
        FullSet(r, next + ends);
      }
    }
  }

  lemma FullSet(r: set<nat>, all: set<nat>)
    requires r <= all && |all| <= |r|
    ensures r == all
  {
    if r != all {
      var x :| x in all && x !in r;
      assert r + {x} <= all;
      Subset(r + {x}, all);
    }
  }

  /** A set within one that fits has room as well. */
  lemma AllFit(next: set<nat>, ends: set<nat>, all: set<nat>)
    requires next <= all && ends <= all && |all| <= POS_CAP
    ensures |next + ends| <= POS_CAP
  {
    Subset(next + ends, all);
  }

  /** Sound ends are real matches. */
  lemma SoundEnds(node: Node, text: seq<nat>, pos: nat, ends: set<nat>)
    requires Sound(node, text, pos, ends) && Inside(ends, text)
    ensures ends <= MatchEnds(node, text, pos)
  {
    hide Matches;
    forall e | e in ends ensures Matches(node, text, pos, e) {
      CappedMatches(node, text, pos, e);
    }
  }

  lemma SoundEndsFrom(node: Node, text: seq<nat>, from: set<nat>, next: set<nat>)
    requires SoundFrom(node, text, from, next) && Inside(next, text)
    ensures next <= EndsFrom(node, text, from)
  {
    hide Matches;
    forall e | e in next ensures EndsAt(node, text, from, e) {
      var p :| p in from && Matches(Capped(node), text, p, e);
      CappedMatches(node, text, p, e);
    }
  }

  // ---------- the matcher ----------

  /** No position is ever dropped. */
  ghost predicate Ample(node: Node, text: seq<nat>, budget: nat) {
    budget <= STEP_BUDGET && Roomy(node, text)
  }

  /** The answer was not cut short: nothing was dropped and some of the budget is left. */
  ghost predicate Full(node: Node, text: seq<nat>, budget: nat, left: nat) {
    Ample(node, text, budget) && left > 0
  }

  ghost predicate AmpleFrom(node: Node, text: seq<nat>, from: set<nat>, budget: nat) {
    Ample(node, text, budget) && |EndsFrom(node, text, from)| <= POS_CAP
  }

  /** Every one of `next` is the end of a match from one of the positions. */
  ghost predicate SoundFrom(node: Node, text: seq<nat>, from: set<nat>, next: set<nat>) {
    forall e :: e in next ==> exists p :: p in from && Matches(Capped(node), text, p, e)
  }

  /** Every match from one of the positions ends in `next`. */
  ghost predicate WholeFrom(node: Node, text: seq<nat>, from: set<nat>, next: set<nat>) {
    forall p, e: nat :: p in from && Matches(node, text, p, e) ==> e in next
  }

  lemma OneMoreStart(node: Node, text: seq<nat>, from: set<nat>, p: nat, done: set<nat>, next: set<nat>, ends: set<nat>,
                     all: set<nat>)
    requires p in from && all <= next + ends
    ensures SoundFrom(node, text, from, next) && Sound(node, text, p, ends) ==> SoundFrom(node, text, from, all)
    ensures WholeFrom(node, text, done, next) && Whole(node, text, p, ends) && all == next + ends
            ==> WholeFrom(node, text, done + {p}, all)
  {
    hide Matches;
  }

  /** What holds once the positions `done` have been tried. */
  ghost predicate Advanced(node: Node, text: seq<nat>, from: set<nat>, done: set<nat>, budget: nat,
                           next: set<nat>, left: nat) {
    && Inside(next, text) && |next| <= POS_CAP && SoundFrom(node, text, from, next)
    && left <= budget && (budget > 0 && done != {} ==> left < budget)
    && (AmpleFrom(node, text, from, budget) ==> left == Left(budget, CostFrom(node, text, done, |text| + 1)))
    && (AmpleFrom(node, text, from, budget) && left > 0 ==> WholeFrom(node, text, done, next))
  }

  /** One more node from each of the given positions.  `eager` stops as soon as the budget
      is used up. */
  method Advance(node: Node, text: seq<nat>, from: set<nat>, budget: nat, eager: bool)
      returns (next: set<nat>, left: nat)
    requires Inside(from, text)
    ensures Inside(next, text) && |next| <= POS_CAP
    ensures SoundFrom(node, text, from, next)
    ensures left <= budget && (budget > 0 && from != {} ==> left < budget)
    ensures AmpleFrom(node, text, from, budget) ==> left == Left(budget, CostFrom(node, text, from, |text| + 1))
    ensures AmpleFrom(node, text, from, budget) && left > 0 ==> WholeFrom(node, text, from, next)
    decreases node, 3
  {
    hide CostFrom, Left, SoundFrom, WholeFrom;
    next, left := {}, budget;
    var todo := from;
    ghost var done: set<nat> := {};
    NoStart(node, text, from, budget);
    while todo != {}
      invariant todo <= from && done == from - todo
      invariant Advanced(node, text, from, done, budget, next, left)
      decreases todo
    {
      hide Advanced;
      var p :| p in todo;
      next, left := AdvanceFrom(node, text, from, done, budget, p, next, left);
      todo, done := todo - {p}, done + {p};
      if eager && left == 0 {
        UsedUp(node, text, from, done, budget, next);
        return;
      }
    }
    assert done == from;
  }

  method AdvanceFrom(node: Node, text: seq<nat>, ghost from: set<nat>, ghost done: set<nat>, ghost budget: nat,
                     p: nat, next: set<nat>, left: nat) returns (next': set<nat>, left': nat)
    requires Advanced(node, text, from, done, budget, next, left)
    requires p in from && p !in done && p <= |text|
    ensures Advanced(node, text, from, done + {p}, budget, next', left')
    decreases node, 2
  {
    hide Matches, Cost, CostFrom, Finds, Left, SoundFrom, WholeFrom, Sound, Whole, EndsFrom, Roomy;
    var ends;
    ends, left' := EndPositions(node, text, p, left);
    next' := AddCapped(next, ends);
    SoundEndsFrom(node, text, from, next);
    MoreEnds(node, text, from, p, ends);
    if AmpleFrom(node, text, from, budget) {
      AllFit(next, ends, EndsFrom(node, text, from));
    }
    OneMoreStart(node, text, from, p, done, next, ends, next');
    CostFromAdd(node, text, done, p, |text| + 1);
    LeftTwice(budget, CostFrom(node, text, done, |text| + 1), Cost(node, text, p));
  }

  lemma MoreEnds(node: Node, text: seq<nat>, from: set<nat>, p: nat, ends: set<nat>)
    requires p in from && Sound(node, text, p, ends) && Inside(ends, text)
    ensures ends <= EndsFrom(node, text, from)
  {
    hide Matches;
    SoundEnds(node, text, p, ends);
  }

  lemma UsedUp(node: Node, text: seq<nat>, from: set<nat>, done: set<nat>, budget: nat, next: set<nat>)
    requires done <= from && done != {} && Advanced(node, text, from, done, budget, next, 0)
    ensures Advanced(node, text, from, from, budget, next, 0)
  {
    hide CostFrom, Left, SoundFrom, WholeFrom;
    if AmpleFrom(node, text, from, budget) {
      CostFromSubset(node, text, done, from, |text| + 1);
      NothingLeft(budget, CostFrom(node, text, done, |text| + 1), CostFrom(node, text, from, |text| + 1));
    }
  }

  lemma NoStart(node: Node, text: seq<nat>, from: set<nat>, budget: nat)
    ensures Advanced(node, text, from, {}, budget, {}, budget)
  {
    CostFromNone(node, text, |text| + 1);
  }

  /** All ends of matches that start at `pos`, as far as the budget reaches.  If no set of
      positions overflows, the steps taken and whether anything is found depend on the
      pattern, the text and the budget alone. */
  method EndPositions(node: Node, text: seq<nat>, pos: nat, budget: nat) returns (ends: set<nat>, left: nat)
    requires pos <= |text|
    ensures Sound(node, text, pos, ends) && Inside(ends, text)
    ensures left <= budget && (budget > 0 ==> left < budget)
    ensures Ample(node, text, budget) ==> left == Left(budget, Cost(node, text, pos))
    ensures Ample(node, text, budget) ==> (ends != {} <==> Finds(node, text, pos, budget))
    ensures Full(node, text, budget, left) ==> Whole(node, text, pos, ends)
    decreases node, 1
  {
    if budget == 0 {
      NoBudget(node, text, pos);
      return {}, 0;
    }
    left := budget - 1;
    hide Matches, Sound, Whole, Roomy, MatchEnds, Capped, Cost, Finds, FindsAmong, Left;
    match node
    case CharSet(chars, negated) =>
      ends := if pos < |text| && (text[pos] in chars) != negated then {pos + 1} else {};
      SimpleEnds(node, text, pos, budget);
    case WordBoundary =>
      ends := if AtBoundary(text, pos) then {pos} else {};
      SimpleEnds(node, text, pos, budget);
    case AnchorStart =>
      ends := if pos == 0 then {pos} else {};
      SimpleEnds(node, text, pos, budget);
    case AnchorEnd =>
      ends := if AtEnd(text, pos) then {pos} else {};
      SimpleEnds(node, text, pos, budget);
    case Empty =>
      ends := {pos};
      SimpleEnds(node, text, pos, budget);
    case Concat(items) =>
      ends, left := ConcatEnds(node, text, pos, left);
      if Ample(node, text, budget) {
        ConcatFinds(node, text, pos, budget, ends, left);
      }
    case Alt(alts) =>
      ends, left := AltEnds(node, text, pos, left);
      if Ample(node, text, budget) {
        AltFinds(node, text, pos, budget, ends, left);
      }
    case Repeat(child, min, max) =>
      ends, left := RepeatEnds(child, min, max, text, pos, left);
      if Ample(node, text, budget) {
        RepeatFinds(node, text, pos, budget, ends, left);
      }
  }

  lemma ConcatFinds(node: Node, text: seq<nat>, pos: nat, budget: nat, ends: set<nat>, left: nat)
    requires node.Concat? && budget > 0 && left == Left(budget - 1, ItemsCost(node, |node.items|, text, pos))
    requires Sound(node, text, pos, ends) && (left > 0 ==> Whole(node, text, pos, ends))
    requires left == 0 ==> (ends != {} <==> node.items == [])
    ensures left == Left(budget, Cost(node, text, pos)) && (ends != {} <==> Finds(node, text, pos, budget))
  {
    hide Matches, Sound, Whole, ItemsCost;
    WholeFinds(node, text, pos, ends);
  }

  lemma AltFinds(node: Node, text: seq<nat>, pos: nat, budget: nat, ends: set<nat>, left: nat)
    requires node.Alt? && budget > 0 && left == Left(budget - 1, AltsCost(node, |node.alts|, text, pos))
    requires Sound(node, text, pos, ends) && (left > 0 ==> Whole(node, text, pos, ends))
    requires ends != {} <==> FindsAmong(node, |node.alts|, text, pos, budget - 1)
    ensures left == Left(budget, Cost(node, text, pos)) && (ends != {} <==> Finds(node, text, pos, budget))
  {
    hide Matches, Sound, Whole, AltsCost, FindsAmong;
    WholeFinds(node, text, pos, ends);
  }

  lemma RepeatFinds(node: Node, text: seq<nat>, pos: nat, budget: nat, ends: set<nat>, left: nat)
    requires node.Repeat? && budget > 0 && left == Left(budget - 1, LevelsCost(node.child, node.max, text, pos))
    requires Sound(node, text, pos, ends) && (left > 0 ==> Whole(node, text, pos, ends))
    requires left == 0 ==> (ends != {} <==> node.min == 0 && node.max == 0)
    ensures left == Left(budget, Cost(node, text, pos)) && (ends != {} <==> Finds(node, text, pos, budget))
  {
    hide Matches, Sound, Whole, LevelsCost;
    WholeFinds(node, text, pos, ends);
  }

  lemma NoBudget(node: Node, text: seq<nat>, pos: nat)
    ensures Sound(node, text, pos, {}) && 0 == Left(0, Cost(node, text, pos)) && !Finds(node, text, pos, 0)
  {
  }

  /** The ends of a node without parts. */
  lemma SimpleEnds(node: Node, text: seq<nat>, pos: nat, budget: nat)
    requires !node.Concat? && !node.Alt? && !node.Repeat? && pos <= |text| && budget > 0
    ensures var ends: set<nat> :=
              if match node
                 case CharSet(chars, negated) => pos < |text| && (text[pos] in chars) != negated
                 case WordBoundary => AtBoundary(text, pos)
                 case AnchorStart => pos == 0
                 case AnchorEnd => AtEnd(text, pos)
                 case _ => true
              then {if node.CharSet? then pos + 1 else pos} else {};
            && Sound(node, text, pos, ends) && Whole(node, text, pos, ends)
            && (ends != {} <==> Finds(node, text, pos, budget)) && budget - 1 == Left(budget, Cost(node, text, pos))
  {
    hide Roomy;
    var one: nat := if node.CharSet? then pos + 1 else pos;
    assert Matches(node, text, pos, one) || forall e: nat :: !Matches(node, text, pos, e);
  }

  lemma WholeFinds(node: Node, text: seq<nat>, pos: nat, ends: set<nat>)
    ensures Sound(node, text, pos, ends) && Whole(node, text, pos, ends)
            ==> (ends != {} <==> MatchesFrom(node, text, pos))
  {
    hide Matches;
    if Sound(node, text, pos, ends) && ends != {} {
      var e :| e in ends;
      CappedMatches(node, text, pos, e);
    }
  }

  method ConcatEnds(node: Node, text: seq<nat>, pos: nat, budget: nat) returns (ends: set<nat>, left: nat)
    requires node.Concat? && pos <= |text|
    ensures Sound(node, text, pos, ends) && Inside(ends, text) && left <= budget
    ensures Ample(node, text, budget) ==> left == Left(budget, ItemsCost(node, |node.items|, text, pos))
    ensures left == 0 ==> (ends != {} <==> node.items == [])
    ensures Full(node, text, budget, left) ==> Whole(node, text, pos, ends)
    decreases node, 0
  {
    hide CostFrom, Roomy, Matches, Prefix;
    FirstPrefix(node, text, pos);
    ends, left := {pos}, budget;
    var i := 0;
    while i < |node.items|
      invariant i <= |node.items| && Inside(ends, text) && left <= budget
      invariant forall e :: e in ends ==> Prefix(Capped(node), i, text, pos, e)
      invariant Ample(node, text, budget) ==> left == Left(budget, ItemsCost(node, i, text, pos))
      invariant i == 0 ==> ends == {pos}
      invariant i > 0 ==> left > 0
      invariant Full(node, text, budget, left) ==> ends == PrefixEnds(node, i, text, pos)
    {
      if Ample(node, text, budget) {
        ItemHasRoom(node, i, text, pos, ends);
      }
      var next;
      next, left := Advance(node.items[i], text, ends, left, true);
      if Ample(node, text, budget) {
        ItemsCostGrows(node, i + 1, |node.items|, text, pos);
      }
      if left == 0 {
        return {}, 0;
      }
      NextItem(node, i, text, pos, ends, next);
      ends := next;
      i := i + 1;
      if ends == {} {
        ItemsCostGrows(node, i, |node.items|, text, pos);
        break;
      }
    }
    PrefixIsWhole(node, text, pos);
    PrefixIsSound(node, text, pos, ends);
  }

  lemma PrefixIsSound(node: Node, text: seq<nat>, pos: nat, ends: set<nat>)
    requires node.Concat? && pos <= |text|
    requires forall e :: e in ends ==> Prefix(Capped(node), |node.items|, text, pos, e)
    ensures Sound(node, text, pos, ends)
  {
    hide Prefix;
  }

  lemma NextItem(node: Node, i: nat, text: seq<nat>, pos: nat, ends: set<nat>, next: set<nat>)
    requires node.Concat? && i < |node.items| && Inside(next, text)
    requires forall e :: e in ends ==> Prefix(Capped(node), i, text, pos, e)
    requires SoundFrom(node.items[i], text, ends, next)
    ensures forall e :: e in next ==> Prefix(Capped(node), i + 1, text, pos, e)
    ensures ends == PrefixEnds(node, i, text, pos)
            && WholeFrom(node.items[i], text, ends, next)
            ==> next == PrefixEnds(node, i + 1, text, pos)
  {
    hide Prefix, Matches;
    forall e | e in next ensures Prefix(Capped(node), i + 1, text, pos, e) {
      var p :| p in ends && Matches(Capped(node.items[i]), text, p, e);
      PrefixStep(Capped(node), i, text, pos, p, e);
    }
    forall e | e in next ensures e in PrefixEnds(node, i + 1, text, pos) {
      CappedPrefix(node, i + 1, text, pos, e);
    }
    if ends == PrefixEnds(node, i, text, pos) && WholeFrom(node.items[i], text, ends, next) {
      forall e | e in PrefixEnds(node, i + 1, text, pos) ensures e in next {
        var k := ShorterPrefix(node, i, text, pos, e);
      }
    }
  }

  lemma FirstPrefix(node: Node, text: seq<nat>, pos: nat)
    requires node.Concat? && pos <= |text|
    ensures Prefix(node, 0, text, pos, pos) && Prefix(Capped(node), 0, text, pos, pos)
    ensures PrefixEnds(node, 0, text, pos) == {pos}
  {
  }

  lemma ItemHasRoom(node: Node, i: nat, text: seq<nat>, pos: nat, ends: set<nat>)
    requires node.Concat? && i < |node.items| && Roomy(node, text) && pos <= |text|
    requires forall e :: e in ends ==> Prefix(Capped(node), i, text, pos, e)
    ensures Roomy(node.items[i], text) && |EndsFrom(node.items[i], text, ends)| <= POS_CAP
  {
    hide Prefix, Matches;
    forall e | e in EndsFrom(node.items[i], text, ends) ensures e in PrefixEnds(node, i + 1, text, pos) {
      var p :| p in ends && Matches(node.items[i], text, p, e);
      CappedPrefix(node, i, text, pos, p);
      PrefixStep(node, i, text, pos, p, e);
    }
    Subset(EndsFrom(node.items[i], text, ends), PrefixEnds(node, i + 1, text, pos));
  }

  method AltEnds(node: Node, text: seq<nat>, pos: nat, budget: nat) returns (ends: set<nat>, left: nat)
    requires node.Alt? && pos <= |text|
    ensures Sound(node, text, pos, ends) && Inside(ends, text) && left <= budget
    ensures Ample(node, text, budget) ==> left == Left(budget, AltsCost(node, |node.alts|, text, pos))
    ensures Ample(node, text, budget) ==> (ends != {} <==> FindsAmong(node, |node.alts|, text, pos, budget))
    ensures Full(node, text, budget, left) ==> Whole(node, text, pos, ends)
    decreases node, 0
  {
    hide Matches, AnyOf, Cost, Finds, FindsAmong, Roomy, MatchEnds;
    NoAlternatives(node, text, pos);
    NoAlternatives(Capped(node), text, pos);
    FindsNone(node, text, pos, budget);
    ends, left := {}, budget;
    var k := 0;
    while k < |node.alts|
      invariant k <= |node.alts| && Inside(ends, text) && left <= budget && |ends| <= POS_CAP
      invariant forall e :: e in ends ==> AnyOf(Capped(node), k, text, pos, e)
      invariant Ample(node, text, budget) ==> left == Left(budget, AltsCost(node, k, text, pos))
      invariant Ample(node, text, budget) ==> (ends != {} <==> FindsAmong(node, k, text, pos, budget))
      invariant Full(node, text, budget, left) ==> forall e: nat :: AnyOf(node, k, text, pos, e) ==> e in ends
    {
      if Ample(node, text, budget) {
        AlternativeHasRoom(node, k, text);
      }
      AnyOfGrows(node, k, text, pos);
      FindsOneMore(node, k, text, pos, budget);
      var found;
      found, left := EndPositions(node.alts[k], text, pos, left);
      ghost var before := ends;
      ends := AddCapped(ends, found);
      AlternativesEnd(node, k, text, pos, before, found);
      k := k + 1;
      if Ample(node, text, budget) {
        RoomyEnds(node, text, pos);
        AllFit(before, found, MatchEnds(node, text, pos));
      }
      if left == 0 {
        if Ample(node, text, budget) {
          NothingMore(node, k, |node.alts|, text, pos, budget);
        }
        break;
      }
    }
    AnyOfMatches(node, k, text, pos);
    AnyOfMatches(Capped(node), k, text, pos);
  }

  lemma AlternativeHasRoom(node: Node, k: nat, text: seq<nat>)
    requires node.Alt? && k < |node.alts| && Roomy(node, text)
    ensures Roomy(node.alts[k], text)
  {
  }

  lemma AlternativesEnd(node: Node, k: nat, text: seq<nat>, pos: nat, before: set<nat>, found: set<nat>)
    requires node.Alt? && k < |node.alts| && pos <= |text| && Inside(before, text) && Inside(found, text)
    requires forall e :: e in before ==> AnyOf(Capped(node), k, text, pos, e)
    requires Sound(node.alts[k], text, pos, found)
    ensures forall e :: e in before + found ==> AnyOf(Capped(node), k + 1, text, pos, e)
    ensures before + found <= MatchEnds(node, text, pos)
  {
    hide Matches, AnyOf;
    assert Capped(node).alts[k] == Capped(node.alts[k]);
    AnyOfGrows(Capped(node), k, text, pos);
    AlternativesMatch(node, k + 1, text, pos, before + found);
  }

  lemma AlternativesMatch(node: Node, k: nat, text: seq<nat>, pos: nat, ends: set<nat>)
    requires node.Alt? && k <= |node.alts| && pos <= |text| && Inside(ends, text)
    requires forall e :: e in ends ==> AnyOf(Capped(node), k, text, pos, e)
    ensures ends <= MatchEnds(node, text, pos)
  {
    hide Matches, AnyOf;
    AnyOfMatches(Capped(node), k, text, pos);
    forall e | e in ends ensures Matches(node, text, pos, e) {
      CappedMatches(node, text, pos, e);
    }
  }

  method RepeatEnds(child: Node, min: nat, max: nat, text: seq<nat>, pos: nat, budget: nat)
      returns (ends: set<nat>, left: nat)
    requires pos <= |text|
    ensures Sound(Repeat(child, min, max), text, pos, ends) && Inside(ends, text) && left <= budget
    ensures Ample(Repeat(child, min, max), text, budget) ==> left == Left(budget, LevelsCost(child, max, text, pos))
    ensures Ample(Repeat(child, min, max), text, budget) && left == 0 ==> (ends != {} <==> min == 0 && max == 0)
    ensures Full(Repeat(child, min, max), text, budget, left) ==> Whole(Repeat(child, min, max), text, pos, ends)
    decreases child, 4
  {
    hide CostFrom, Matches, Times, Reached, Exhausted, Roomy, MatchEnds, Gathered, Complete, Collected, Stepping;
    var levels := [{pos}];
    var cur := {pos};
    left := budget;
    FirstLevel(child, text, pos);
    var k := 0;
    while true
      invariant |levels| == k + 1 && cur == levels[k] && cur != {} && k <= max && k + left <= budget
      invariant levels[0] == {pos} && Inside(cur, text) && (k > 0 ==> left > 0)
      invariant Reached(child, text, pos, levels) && forall n :: 0 <= n < |levels| ==> levels[n] != {}
      invariant Ample(Repeat(child, min, max), text, budget) ==> left == Left(budget, LevelsCost(child, k, text, pos))
      invariant Full(Repeat(child, min, max), text, budget, left) ==> Exhausted(child, text, pos, levels)
      decreases left
    {
      if k == max {
        break;
      }
      if Full(Repeat(child, min, max), text, budget, left) {
        LevelIs(child, text, pos, levels, k);
      }
      if Ample(Repeat(child, min, max), text, budget) {
        LevelHasRoom(child, min, max, text, pos, levels, k);
      }
      var next;
      next, left := Advance(child, text, cur, left, false);
      if Ample(Repeat(child, min, max), text, budget) {
        LevelsCostGrows(child, k + 1, max, text, pos);
      }
      if left == 0 {
        return {}, 0;
      }
      NextLevel(child, text, pos, levels, cur, next);
      if next == {} {
        if Full(Repeat(child, min, max), text, budget, left) {
          LevelIs(child, text, pos, levels + [next], k + 1);
          NoMoreTimes(child, k + 1, text, pos);
        }
        break;
      }
      cur := next;
      levels := levels + [cur];
      k := k + 1;
    }
    LevelsStayInside(child, text, pos, levels);
    LevelsMatch(child, min, max, text, pos, levels);
    if child.CharSet? {
      LevelsStep(child, text, pos, levels);
    }
    var start := if min < |levels| then min else |levels|;
    ends := CollectLevels(text, pos, levels, start, MatchEnds(Repeat(child, min, max), text, pos));
    LevelsAreSound(child, min, max, text, pos, levels, start, ends);
    assert left == 0 ==> levels == [{pos}];
    OnlyStart(min, levels, pos, start, ends);
    if Ample(Repeat(child, min, max), text, budget) {
      RoomyEnds(Repeat(child, min, max), text, pos);
    }
    if Full(Repeat(child, min, max), text, budget, left) {
      LevelsAreWhole(child, min, max, text, pos, levels, start, ends);
    }
  }

  lemma OnlyStart(min: nat, levels: seq<set<nat>>, pos: nat, start: nat, ends: set<nat>)
    requires start == (if min < |levels| then min else |levels|) && Gathered(ends, levels, start, |levels|)
    ensures levels == [{pos}] && min > 0 ==> ends == {}
    ensures levels == [{pos}] && min == 0 && Complete(ends, levels, start, |levels|) ==> ends != {}
  {
    if levels == [{pos}] {
      assert levels[0] == {pos} && pos in levels[0];
      assert start == 0 && Complete(ends, levels, start, |levels|) ==> pos in ends;
    }
  }

  lemma FirstLevel(child: Node, text: seq<nat>, pos: nat)
    requires pos <= |text|
    ensures Reached(child, text, pos, [{pos}]) && Exhausted(child, text, pos, [{pos}])
  {
  }

  lemma LevelsStayInside(child: Node, text: seq<nat>, pos: nat, levels: seq<set<nat>>)
    requires Reached(child, text, pos, levels)
    ensures forall n :: 0 <= n < |levels| ==> Inside(levels[n], text)
  {
  }

  /** Every end collected from the levels from `min` on is an end of that many matches. */
  lemma LevelsAreSound(child: Node, min: nat, max: nat, text: seq<nat>, pos: nat, levels: seq<set<nat>>, start: nat,
                       ends: set<nat>)
    requires pos <= |text| && Reached(child, text, pos, levels) && |levels| <= max + 1
    requires start == if min < |levels| then min else |levels|
    requires Gathered(ends, levels, start, |levels|)
    requires child.CharSet? ==> Collected(ends, pos + start, |levels| - start)
    ensures Sound(Repeat(child, min, max), text, pos, ends)
  {
    var capped := Capped(Repeat(child, min, max));
    forall e | e in ends ensures Matches(capped, text, pos, e) {
      var n: nat :| min <= n < |levels| && e in levels[n];
      if child.CharSet? {
        CharTimes(child, n, text, pos, e);
      }
      assert InRange(n, min, capped.max) && Times(capped.child, n, text, pos, e);
    }
  }

  /** Everything collected is the end of a match. */
  lemma LevelsMatch(child: Node, min: nat, max: nat, text: seq<nat>, pos: nat, levels: seq<set<nat>>)
    requires pos <= |text| && Reached(child, text, pos, levels) && |levels| <= max + 1
    ensures forall n, e :: min <= n < |levels| && e in levels[n] ==> e in MatchEnds(Repeat(child, min, max), text, pos)
  {
    forall n, e | min <= n < |levels| && e in levels[n]
      ensures Matches(Repeat(child, min, max), text, pos, e)
    {
      CappedTimes(child, n, text, pos, e);
      assert InRange(n, min, max) && Times(child, n, text, pos, e);
    }
  }

  /** Repeating a single character, each round is one position further. */
  lemma LevelsStep(child: Node, text: seq<nat>, pos: nat, levels: seq<set<nat>>)
    requires child.CharSet? && Reached(child, text, pos, levels)
    requires forall n :: 0 <= n < |levels| ==> levels[n] != {}
    ensures Stepping(levels, pos)
  {
    hide Times;
    forall n | 0 <= n < |levels| ensures levels[n] == {pos + n} {
      forall e | e in levels[n] ensures e == pos + n {
        CharTimes(child, n, text, pos, e);
      }
      var e :| e in levels[n];
    }
  }

  ghost predicate Stepping(levels: seq<set<nat>>, pos: nat) {
    forall n :: 0 <= n < |levels| ==> levels[n] == {pos + n}
  }

  lemma LevelHasRoom(child: Node, min: nat, max: nat, text: seq<nat>, pos: nat, levels: seq<set<nat>>, k: nat)
    requires k < |levels| && k < max && pos <= |text| && Reached(child, text, pos, levels)
    requires Roomy(Repeat(child, min, max), text)
    ensures Roomy(child, text) && |EndsFrom(child, text, levels[k])| <= POS_CAP
  {
    hide Matches, Times;
    forall e | e in EndsFrom(child, text, levels[k]) ensures e in TimesEnds(child, k + 1, text, pos) {
      var p :| p in levels[k] && Matches(child, text, p, e);
      CappedTimes(child, k, text, pos, p);
      TimesStep(child, k, text, pos, p, e);
    }
    Subset(EndsFrom(child, text, levels[k]), TimesEnds(child, k + 1, text, pos));
  }

  /** When no further round leads anywhere, the levels from `min` on hold every match. */
  lemma LevelsAreWhole(child: Node, min: nat, max: nat, text: seq<nat>, pos: nat, levels: seq<set<nat>>, start: nat,
                       ends: set<nat>)
    requires Exhausted(child, text, pos, levels)
    requires (max < UNBOUNDED && |levels| == max + 1)
             || forall m: nat, e: nat :: |levels| <= m ==> !Times(child, m, text, pos, e)
    requires start == (if min < |levels| then min else |levels|) && Complete(ends, levels, start, |levels|)
    ensures Whole(Repeat(child, min, max), text, pos, ends)
  {
    forall e: nat | Matches(Repeat(child, min, max), text, pos, e) ensures e in ends {
      var n: nat :| InRange(n, min, max) && Times(child, n, text, pos, e);
      assert Times(child, n, text, pos, e);
      assert n < |levels|;
    }
  }

  /** Each level holds ends of that many matches. */
  ghost predicate Reached(child: Node, text: seq<nat>, pos: nat, levels: seq<set<nat>>) {
    forall n ::
      0 <= n < |levels|
      ==> Inside(levels[n], text) && forall e :: e in levels[n] ==> Times(Capped(child), n, text, pos, e)
  }

  /** Each level holds all of them. */
  ghost predicate Exhausted(child: Node, text: seq<nat>, pos: nat, levels: seq<set<nat>>) {
    forall n, e: nat :: 0 <= n < |levels| && Times(child, n, text, pos, e) ==> e in levels[n]
  }

  lemma LevelIs(child: Node, text: seq<nat>, pos: nat, levels: seq<set<nat>>, k: nat)
    requires k < |levels| && Reached(child, text, pos, levels) && Exhausted(child, text, pos, levels)
    ensures levels[k] == TimesEnds(child, k, text, pos)
  {
    hide Times;
    forall e | e in levels[k] ensures Times(child, k, text, pos, e) {
      CappedTimes(child, k, text, pos, e);
    }
  }

  lemma NextLevel(child: Node, text: seq<nat>, pos: nat, levels: seq<set<nat>>, cur: set<nat>, next: set<nat>)
    requires levels != [] && cur == levels[|levels| - 1] && Inside(next, text) && Reached(child, text, pos, levels)
    requires SoundFrom(child, text, cur, next)
    ensures Reached(child, text, pos, levels + [next])
    ensures Exhausted(child, text, pos, levels) && WholeFrom(child, text, cur, next)
            ==> Exhausted(child, text, pos, levels + [next])
  {
    hide Times, Matches;
    var k := |levels| - 1;
    forall e | e in next ensures Times(Capped(child), k + 1, text, pos, e) {
      var p :| p in cur && Matches(Capped(child), text, p, e);
      TimesStep(Capped(child), k, text, pos, p, e);
    }
    if Exhausted(child, text, pos, levels) && WholeFrom(child, text, cur, next) {
      forall e: nat | Times(child, k + 1, text, pos, e) ensures e in next {
        var p := TimesLast(child, k, text, pos, e);
      }
    }
  }

  /** Everything in `ends` comes from a level between `start` and n. */
  ghost predicate Gathered(ends: set<nat>, levels: seq<set<nat>>, start: nat, n: nat) {
    forall e :: e in ends ==> exists k :: start <= k < n && k < |levels| && e in levels[k]
  }

  /** Nothing in those levels is missing. */
  ghost predicate Complete(ends: set<nat>, levels: seq<set<nat>>, start: nat, n: nat) {
    forall k, e :: start <= k < n && k < |levels| && e in levels[k] ==> e in ends
  }

  lemma NoLevel(levels: seq<set<nat>>, pos: nat, start: nat)
    ensures Gathered({}, levels, start, start) && Complete({}, levels, start, start) && Collected({}, pos + start, 0)
  {
  }

  lemma OneLevel(before: set<nat>, levels: seq<set<nat>>, start: nat, n: nat, ends: set<nat>)
    requires start <= n < |levels| && ends <= before + levels[n]
    ensures Gathered(before, levels, start, n) ==> Gathered(ends, levels, start, n + 1)
    ensures ends == before + levels[n] && Complete(before, levels, start, n) ==> Complete(ends, levels, start, n + 1)
  {
  }

  /** The positions of the levels from `start` on, as many as a set may hold. */
  method CollectLevels(text: seq<nat>, ghost pos: nat, levels: seq<set<nat>>, start: nat, ghost all: set<nat>)
      returns (ends: set<nat>)
    requires start <= |levels| && forall n :: 0 <= n < |levels| ==> Inside(levels[n], text)
    requires forall n, e :: start <= n < |levels| && e in levels[n] ==> e in all
    ensures Inside(ends, text) && Gathered(ends, levels, start, |levels|)
    ensures Stepping(levels, pos) ==> Collected(ends, pos + start, |levels| - start)
    ensures |all| <= POS_CAP ==> Complete(ends, levels, start, |levels|)
  {
    hide Gathered, Complete, Collected, Stepping;
    ends := {};
    NoLevel(levels, pos, start);
    for i := start to |levels|
      invariant Inside(ends, text) && |ends| <= POS_CAP && ends <= all
      invariant Gathered(ends, levels, start, i)
      invariant Stepping(levels, pos) ==> Collected(ends, pos + start, i - start)
      invariant |all| <= POS_CAP ==> Complete(ends, levels, start, i)
    {
      if |all| <= POS_CAP {
        AllFit(ends, levels[i], all);
      }
      ghost var before := ends;
      ends := AddCapped(ends, levels[i]);
      OneLevel(before, levels, start, i, ends);
      if Stepping(levels, pos) {
        OneStep(before, levels, pos, start, i, ends);
      }
    }
  }

  /** n positions in a row from p on, or as many of them as a set may hold. */
  ghost predicate Collected(ends: set<nat>, p: nat, n: nat) {
    && |ends| == (if n < POS_CAP then n else POS_CAP)
    && forall e :: e in ends ==> e < p + |ends|
  }

  lemma OneStep(before: set<nat>, levels: seq<set<nat>>, pos: nat, start: nat, n: nat, ends: set<nat>)
    requires start <= n < |levels| && Stepping(levels, pos) && Collected(before, pos + start, n - start)
    requires before <= ends <= before + levels[n] && |ends| <= POS_CAP
    requires |before + levels[n]| <= POS_CAP ==> ends == before + levels[n]
    ensures Collected(ends, pos + start, n + 1 - start)
  {
    OneMore(before, pos + start, n - start, ends);
  }

  lemma OneMore(before: set<nat>, p: nat, n: nat, ends: set<nat>)
    requires Collected(before, p, n)
    requires before <= ends <= before + {p + n} && |ends| <= POS_CAP
    requires |before + {p + n}| <= POS_CAP ==> ends == before + {p + n}
    ensures Collected(ends, p, n + 1)
  {
    if n < POS_CAP {
      assert |before + {p + n}| == n + 1;
    } else {
      FullSet(before, ends);
    }
  }

  // ---------- searching ----------

  /** Tries every start with one budget.  If no set of positions overflows, it finds exactly
      what the budget lasts for; any hit is real. */
  method Search(node: Node, text: seq<nat>) returns (hit: bool, left: nat)
    ensures hit ==> MatchesSomewhere(Capped(node), text)
    ensures Roomy(node, text) ==> (hit <==> Found(node, text))
    ensures Full(node, text, 100000, left) ==> (hit <==> MatchesSomewhere(node, text))
  {
    hide Finds, Cost, Roomy, Matches, Capped;
    left := STEP_BUDGET;
    for start := 0 to |text| + 1
      invariant left <= STEP_BUDGET && (start > 0 ==> left > 0)
      invariant Roomy(node, text) ==> left == Left(STEP_BUDGET, StartsCost(node, text, start))
      invariant Roomy(node, text) ==> forall s: nat :: s < start ==> !FoundAt(node, text, s)
      invariant Full(node, text, STEP_BUDGET, left) ==>
                  forall i: nat, j: nat :: i < start ==> !Matches(node, text, i, j)
    {
      var ends;
      ends, left := EndPositions(node, text, start, left);
      if ends != {} {
        var e :| e in ends;
        assert Matches(Capped(node), text, start, e);
        CappedMatches(node, text, start, e);
        assert Roomy(node, text) ==> FoundAt(node, text, start);
        return true, left;
      }
      if left == 0 {
        if Roomy(node, text) {
          NotAfter(node, text, start + 1);
        }
        break;
      }
    }
    hit := false;
    StartsInside(node, text);
  }

  lemma StartsInside(node: Node, text: seq<nat>)
    ensures forall i: nat, j: nat :: Matches(node, text, i, j) ==> i <= |text|
  {
  }
}
