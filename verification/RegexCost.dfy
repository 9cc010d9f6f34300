/** What a match costs: the steps the budgeted matcher takes, stated on the pattern and the
    text alone (src/fastapi_mojo_rs/src/bridge/regex.rs). */
module RegexCost {
  import opened RegexMeaning

  // ---------- the number of steps ----------

  /** The ends of the first n items, from `pos`. */
  ghost function PrefixEnds(node: Node, n: nat, text: seq<nat>, pos: nat): set<nat>
    requires node.Concat? && n <= |node.items|
  {
    set e: nat | e <= |text| && Prefix(node, n, text, pos, e)
  }

  /** The ends of n matches in a row, from `pos`. */
  ghost function TimesEnds(node: Node, n: nat, text: seq<nat>, pos: nat): set<nat> {
    set e: nat | e <= |text| && Times(node, n, text, pos, e)
  }

  /** The steps of a match that starts at `pos`, whatever they lead to. */
  ghost function Cost(node: Node, text: seq<nat>, pos: nat): (steps: nat)
    ensures steps > 0
    decreases node, 1, 0
  {
    match node
    case Concat(items) => 1 + ItemsCost(node, |items|, text, pos)
    case Alt(alts) => 1 + AltsCost(node, |alts|, text, pos)
    case Repeat(child, _, max) => 1 + LevelsCost(child, max, text, pos)
    case _ => 1
  }

  /** The steps from all of the given positions below n. */
  ghost function CostFrom(node: Node, text: seq<nat>, from: set<nat>, n: nat): nat
    decreases node, 2, n
  {
    if n == 0 then 0
    else CostFrom(node, text, from, n - 1) + if n - 1 in from then Cost(node, text, n - 1) else 0
  }

  ghost function ItemsCost(node: Node, n: nat, text: seq<nat>, pos: nat): nat
    requires node.Concat? && n <= |node.items|
    decreases node, 0, n
  {
    if n == 0 then 0
    else
      var last := node.items[n - 1];
      ItemsCost(node, n - 1, text, pos) + CostFrom(last, text, PrefixEnds(node, n - 1, text, pos), |text| + 1)
  }

  ghost function AltsCost(node: Node, n: nat, text: seq<nat>, pos: nat): nat
    requires node.Alt? && n <= |node.alts|
    decreases node, 0, n
  {
    if n == 0 then 0 else AltsCost(node, n - 1, text, pos) + Cost(node.alts[n - 1], text, pos)
  }

  /** The first n rounds of a repeat. */
  ghost function LevelsCost(child: Node, n: nat, text: seq<nat>, pos: nat): nat
    decreases child, 3, n
  {
    if n == 0 then 0
    else LevelsCost(child, n - 1, text, pos) + CostFrom(child, text, TimesEnds(child, n - 1, text, pos), |text| + 1)
  }

  /** What is left of a budget. */
  function Left(budget: nat, steps: nat): nat {
    if steps < budget then budget - steps else 0
  }

  lemma LeftTwice(budget: nat, a: nat, b: nat)
    ensures Left(Left(budget, a), b) == Left(budget, a + b)
  {
  }

  lemma NothingLeft(budget: nat, a: nat, b: nat)
    requires a <= b && Left(budget, a) == 0
    ensures Left(budget, b) == 0
  {
  }

  lemma {:induction false} CostFromAdd(node: Node, text: seq<nat>, from: set<nat>, p: nat, n: nat)
    requires p !in from
    ensures CostFrom(node, text, from + {p}, n)
            == CostFrom(node, text, from, n) + if p < n then Cost(node, text, p) else 0
    decreases n
  {
    hide Cost;
    if n > 0 {
      CostFromAdd(node, text, from, p, n - 1);
    }
  }

  lemma {:induction false} CostFromSubset(node: Node, text: seq<nat>, from: set<nat>, all: set<nat>, n: nat)
    requires from <= all
    ensures CostFrom(node, text, from, n) <= CostFrom(node, text, all, n)
    decreases n
  {
    hide Cost;
    if n > 0 {
      CostFromSubset(node, text, from, all, n - 1);
    }
  }

  lemma {:induction false} CostFromNone(node: Node, text: seq<nat>, n: nat)
    ensures CostFrom(node, text, {}, n) == 0
    decreases n
  {
    if n > 0 {
      CostFromNone(node, text, n - 1);
    }
  }

  /** Later items add to the steps, unless nothing leads to them. */
  lemma {:induction false} ItemsCostGrows(node: Node, k: nat, n: nat, text: seq<nat>, pos: nat)
    requires node.Concat? && k <= n <= |node.items|
    ensures ItemsCost(node, k, text, pos) <= ItemsCost(node, n, text, pos)
    ensures PrefixEnds(node, k, text, pos) == {} ==>
              ItemsCost(node, n, text, pos) == ItemsCost(node, k, text, pos) && PrefixEnds(node, n, text, pos) == {}
    decreases n
  {
    hide CostFrom;
    if k < n {
      ItemsCostGrows(node, k, n - 1, text, pos);
      if PrefixEnds(node, k, text, pos) == {} {
        CostFromNone(node.items[n - 1], text, |text| + 1);
        NoLongerPrefix(node, n - 1, text, pos);
      }
    }
  }

  lemma ShorterPrefix(node: Node, n: nat, text: seq<nat>, pos: nat, e: nat) returns (k: nat)
    requires node.Concat? && n < |node.items| && e in PrefixEnds(node, n + 1, text, pos)
    ensures k in PrefixEnds(node, n, text, pos) && Matches(node.items[n], text, k, e)
  {
    hide Prefix, Matches;
    k := PrefixLast(node, n, text, pos, e);
    MatchesStayInside(node.items[n], text, k, e);
  }

  lemma PrefixIsWhole(node: Node, text: seq<nat>, pos: nat)
    requires node.Concat?
    ensures forall e: nat :: Matches(node, text, pos, e) ==> e in PrefixEnds(node, |node.items|, text, pos)
  {
    forall e: nat | Matches(node, text, pos, e) ensures e in PrefixEnds(node, |node.items|, text, pos) {
      MatchesStayInside(node, text, pos, e);
    }
  }

  lemma NoLongerPrefix(node: Node, n: nat, text: seq<nat>, pos: nat)
    requires node.Concat? && n < |node.items| && PrefixEnds(node, n, text, pos) == {}
    ensures PrefixEnds(node, n + 1, text, pos) == {}
  {
    hide PrefixEnds;
    if PrefixEnds(node, n + 1, text, pos) != {} {
      var e :| e in PrefixEnds(node, n + 1, text, pos);
      var k := ShorterPrefix(node, n, text, pos, e);
    }
  }

  lemma {:induction false} AltsCostGrows(node: Node, k: nat, n: nat, text: seq<nat>, pos: nat)
    requires node.Alt? && k <= n <= |node.alts|
    ensures AltsCost(node, k, text, pos) <= AltsCost(node, n, text, pos)
    decreases n
  {
    hide Cost;
    if k < n {
      AltsCostGrows(node, k, n - 1, text, pos);
    }
  }

  /** Later rounds add to the steps, unless there are none. */
  lemma {:induction false} LevelsCostGrows(child: Node, k: nat, n: nat, text: seq<nat>, pos: nat)
    requires k <= n
    ensures LevelsCost(child, k, text, pos) <= LevelsCost(child, n, text, pos)
    ensures TimesEnds(child, k, text, pos) == {} ==>
              LevelsCost(child, n, text, pos) == LevelsCost(child, k, text, pos) && TimesEnds(child, n, text, pos) == {}
    decreases n
  {
    hide CostFrom;
    if k < n {
      LevelsCostGrows(child, k, n - 1, text, pos);
      if TimesEnds(child, k, text, pos) == {} {
        CostFromNone(child, text, |text| + 1);
        NoLongerTimes(child, n - 1, text, pos);
      }
    }
  }

  lemma ShorterTimes(child: Node, n: nat, text: seq<nat>, pos: nat, e: nat) returns (k: nat)
    requires e in TimesEnds(child, n + 1, text, pos)
    ensures k in TimesEnds(child, n, text, pos) && Matches(child, text, k, e)
  {
    hide Times, Matches;
    k := TimesLast(child, n, text, pos, e);
    MatchesStayInside(child, text, k, e);
  }

  lemma NoLongerTimes(child: Node, n: nat, text: seq<nat>, pos: nat)
    requires TimesEnds(child, n, text, pos) == {}
    ensures TimesEnds(child, n + 1, text, pos) == {}
  {
    hide TimesEnds;
    if TimesEnds(child, n + 1, text, pos) != {} {
      var e :| e in TimesEnds(child, n + 1, text, pos);
      var k := ShorterTimes(child, n, text, pos, e);
    }
  }

  lemma NoMoreTimes(child: Node, n: nat, text: seq<nat>, pos: nat)
    requires pos <= |text| && TimesEnds(child, n, text, pos) == {}
    ensures forall m: nat, e: nat :: n <= m ==> !Times(child, m, text, pos, e)
  {
    hide Times;
    forall e: nat ensures Times(child, n, text, pos, e) ==> e in TimesEnds(child, n, text, pos) {
      if Times(child, n, text, pos, e) {
        TimesStayInside(child, n, text, pos, e);
      }
    }
    DeadTimes(child, n, text, pos);
  }

  // ---------- what a budget finds ----------

  ghost predicate MatchesFrom(node: Node, text: seq<nat>, pos: nat) {
    exists e: nat :: Matches(node, text, pos, e)
  }

  /** The matcher comes back with some end.  Enough budget shows every match.  A smaller one
      shows nothing of a sequence or a repeat, but it shows the last step of a single item
      and what the alternatives tried so far have found. */
  ghost predicate Finds(node: Node, text: seq<nat>, pos: nat, budget: nat)
    decreases node, 1, 0
  {
    && budget > 0
    && if Cost(node, text, pos) < budget then MatchesFrom(node, text, pos)
       else
         match node
         case Concat(items) => items == []
         case Alt(alts) => FindsAmong(node, |alts|, text, pos, budget - 1)
         case Repeat(_, min, max) => min == 0 && max == 0
         case _ => MatchesFrom(node, text, pos)
  }

  /** One of the first n alternatives is found with what those before it leave. */
  ghost predicate FindsAmong(node: Node, n: nat, text: seq<nat>, pos: nat, budget: nat)
    requires node.Alt? && n <= |node.alts|
    decreases node, 0, n
  {
    exists k :: 0 <= k < n && Finds(node.alts[k], text, pos, Left(budget, AltsCost(node, k, text, pos)))
  }

  lemma {:induction false} FindsIsMatch(node: Node, text: seq<nat>, pos: nat, budget: nat)
    requires pos <= |text| && Finds(node, text, pos, budget)
    ensures MatchesFrom(node, text, pos)
  {
    hide Cost, Left;
    if Cost(node, text, pos) >= budget {
      match node
      case Concat(items) => assert Matches(node, text, pos, pos);
      case Alt(alts) =>
        var k :| 0 <= k < |alts| && Finds(alts[k], text, pos, Left(budget - 1, AltsCost(node, k, text, pos)));
        FindsIsMatch(alts[k], text, pos, Left(budget - 1, AltsCost(node, k, text, pos)));
        var e: nat :| Matches(alts[k], text, pos, e);
        assert Matches(node, text, pos, e);
      case Repeat(child, min, max) =>
        assert InRange(0, min, max) && Times(child, 0, text, pos, pos);
        assert Matches(node, text, pos, pos);
      case _ =>
    }
  }

  lemma FindsNone(node: Node, text: seq<nat>, pos: nat, budget: nat)
    requires node.Alt?
    ensures !FindsAmong(node, 0, text, pos, budget)
  {
  }

  lemma FindsOneMore(node: Node, k: nat, text: seq<nat>, pos: nat, budget: nat)
    requires node.Alt? && k < |node.alts|
    ensures FindsAmong(node, k + 1, text, pos, budget)
            <==> FindsAmong(node, k, text, pos, budget)
                 || Finds(node.alts[k], text, pos, Left(budget, AltsCost(node, k, text, pos)))
  {
    hide Finds, AltsCost, Left;
  }

  /** Once the budget is used up, later alternatives find nothing. */
  lemma NothingMore(node: Node, k: nat, n: nat, text: seq<nat>, pos: nat, budget: nat)
    requires node.Alt? && k <= n <= |node.alts| && AltsCost(node, k, text, pos) >= budget
    ensures AltsCost(node, n, text, pos) >= budget
    ensures FindsAmong(node, n, text, pos, budget) <==> FindsAmong(node, k, text, pos, budget)
  {
    hide Cost;
    AltsCostGrows(node, k, n, text, pos);
    if FindsAmong(node, n, text, pos, budget) {
      var m :| 0 <= m < n && Finds(node.alts[m], text, pos, Left(budget, AltsCost(node, m, text, pos)));
      if m >= k {
        AltsCostGrows(node, k, m, text, pos);
      }
    }
  }

  // ---------- all starts ----------

  /** The steps from the first n starts. */
  ghost function StartsCost(node: Node, text: seq<nat>, n: nat): nat {
    if n == 0 then 0 else StartsCost(node, text, n - 1) + Cost(node, text, n - 1)
  }

  /** What the starts before s leave of the budget is enough for an answer at s. */
  ghost predicate FoundAt(node: Node, text: seq<nat>, s: nat) {
    s <= |text| && Finds(node, text, s, Left(STEP_BUDGET, StartsCost(node, text, s)))
  }

  ghost predicate Found(node: Node, text: seq<nat>) {
    exists s: nat :: FoundAt(node, text, s)
  }

  lemma {:induction false} StartsCostGrows(node: Node, text: seq<nat>, k: nat, n: nat)
    requires k <= n
    ensures StartsCost(node, text, k) <= StartsCost(node, text, n)
    decreases n
  {
    hide Cost;
    if k < n {
      StartsCostGrows(node, text, k, n - 1);
    }
  }

  /** Nothing is found after the budget is used up. */
  lemma NotAfter(node: Node, text: seq<nat>, k: nat)
    requires StartsCost(node, text, k) >= STEP_BUDGET
    ensures forall s: nat :: s >= k ==> !FoundAt(node, text, s)
  {
    forall s: nat | s >= k ensures !FoundAt(node, text, s) {
      StartsCostGrows(node, text, k, s);
    }
  }
}
