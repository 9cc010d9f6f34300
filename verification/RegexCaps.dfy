/** Sets of positions are capped: what a repeat of single characters can still reach, and
    when nothing is ever dropped (src/fastapi_mojo_rs/src/bridge/regex.rs). */
module RegexCaps {
  import opened Wrappers
  import opened RegexMeaning
  import opened RegexCost
  import opened RegexBudget

  // ---------- what the cap makes of a repeat ----------

  /** The node whose repeats of a single character go no further than the cap lets them. */
  function Capped(node: Node): Node {
    match node
    case Concat(items) => Concat(seq(|items|, k requires 0 <= k < |items| => Capped(items[k])))
    case Alt(alts) => Alt(seq(|alts|, k requires 0 <= k < |alts| => Capped(alts[k])))
    case Repeat(child, min, max) => Repeat(Capped(child), min, Ceiling(child, min, max))
    case _ => node
  }

  function Ceiling(child: Node, min: nat, max: nat): nat {
    if child.CharSet? && min + POS_CAP <= max <= UNBOUNDED then min + POS_CAP - 1 else max
  }

  /** The capped node matches less. */
  lemma {:induction false} CappedMatches(node: Node, text: seq<nat>, i: nat, j: nat)
    requires Matches(Capped(node), text, i, j)
    ensures Matches(node, text, i, j)
    decreases node, 1, 0
  {
    match node
    case Concat(items) => CappedPrefix(node, |items|, text, i, j);
    case Alt(alts) =>
      var k :| 0 <= k < |alts| && Matches(Capped(node).alts[k], text, i, j);
      CappedMatches(alts[k], text, i, j);
    case Repeat(child, min, max) =>
      var n: nat :| InRange(n, min, Ceiling(child, min, max)) && Times(Capped(child), n, text, i, j);
      CappedTimes(child, n, text, i, j);
      assert InRange(n, min, max);
    case _ =>
  }

  lemma {:induction false} CappedPrefix(node: Node, n: nat, text: seq<nat>, i: nat, j: nat)
    requires node.Concat? && n <= |node.items| && Prefix(Capped(node), n, text, i, j)
    ensures Prefix(node, n, text, i, j)
    decreases node, 0, n
  {
    if n > 0 {
      var k := PrefixLast(Capped(node), n - 1, text, i, j);
      CappedPrefix(node, n - 1, text, i, k);
      CappedMatches(node.items[n - 1], text, k, j);
    }
  }

  lemma {:induction false} CappedTimes(child: Node, n: nat, text: seq<nat>, i: nat, j: nat)
    requires Times(Capped(child), n, text, i, j)
    ensures Times(child, n, text, i, j)
    decreases child, 2, n
  {
    if n > 0 {
      var k := TimesLast(Capped(child), n - 1, text, i, j);
      CappedTimes(child, n - 1, text, i, k);
      CappedMatches(child, text, k, j);
    }
  }

  lemma {:induction false} CharTimes(child: Node, n: nat, text: seq<nat>, i: nat, j: nat)
    requires child.CharSet? && Times(child, n, text, i, j)
    ensures j == i + n
    decreases n
  {
    if n > 0 {
      var k := TimesLast(child, n - 1, text, i, j);
      CharTimes(child, n - 1, text, i, k);
    }
  }

  // ---------- when nothing is dropped ----------

  ghost function MatchEnds(node: Node, text: seq<nat>, pos: nat): set<nat> {
    set e: nat | e <= |text| && Matches(node, text, pos, e)
  }

  /** The ends of matches that start at one of the positions. */
  ghost function EndsFrom(node: Node, text: seq<nat>, from: set<nat>): set<nat> {
    set e: nat | e <= |text| && EndsAt(node, text, from, e)
  }

  ghost predicate EndsAt(node: Node, text: seq<nat>, from: set<nat>, e: nat) {
    exists p :: p in from && Matches(node, text, p, e)
  }

  /** From no position does a part of the node have more ends than a set may hold. */
  ghost predicate Roomy(node: Node, text: seq<nat>) {
    match node
    case Concat(items) =>
      && (forall k :: 0 <= k < |items| ==> Roomy(items[k], text))
      && forall k, p: nat :: 0 < k <= |items| && p <= |text| ==> |PrefixEnds(node, k, text, p)| <= POS_CAP
    case Alt(alts) =>
      && (forall k :: 0 <= k < |alts| ==> Roomy(alts[k], text))
      && forall p: nat :: p <= |text| ==> |MatchEnds(node, text, p)| <= POS_CAP
    case Repeat(child, _, max) =>
      && Roomy(child, text)
      && (forall n: nat, p: nat :: n <= max && p <= |text| ==> |TimesEnds(child, n, text, p)| <= POS_CAP)
      && forall p: nat :: p <= |text| ==> |MatchEnds(node, text, p)| <= POS_CAP
    case _ => true
  }

  lemma {:induction false} Subset(a: set<nat>, b: set<nat>)
    requires a <= b
    ensures |a| <= |b|
    decreases a
  {
    if a != {} {
      var x :| x in a;
      Subset(a - {x}, b - {x});
    }
  }

  lemma {:induction false} FewNear(ends: set<nat>, p: nat, n: nat)
    requires forall e :: e in ends ==> p <= e < p + n
    ensures |ends| <= n
    decreases n
  {
    if n == 0 {
      assert ends == {};
    } else {
      FewNear(ends - {p + n - 1}, p, n - 1);
      assert |ends| <= |ends - {p + n - 1}| + 1;
    }
  }

  /** A text below the cap has no more positions than a set may hold. */
  lemma {:induction false} ShortIsRoomy(node: Node, text: seq<nat>)
    requires |text| < 1024
    ensures Roomy(node, text)
    decreases node
  {
    forall ends: set<nat> | forall e :: e in ends ==> e <= |text| ensures |ends| <= POS_CAP {
      FewNear(ends, 0, |text| + 1);
    }
    match node
    case Concat(items) =>
      forall k | 0 <= k < |items| ensures Roomy(items[k], text) { ShortIsRoomy(items[k], text); }
    case Alt(alts) =>
      forall k | 0 <= k < |alts| ensures Roomy(alts[k], text) { ShortIsRoomy(alts[k], text); }
    case Repeat(child, _, _) => ShortIsRoomy(child, text);
    case _ =>
  }

  lemma RoomyEnds(node: Node, text: seq<nat>, pos: nat)
    requires Roomy(node, text) && pos <= |text|
    ensures |MatchEnds(node, text, pos)| <= POS_CAP
  {
    match node
    case Concat(items) =>
      if items == [] {
        forall e | e in MatchEnds(node, text, pos) ensures e == pos {
          assert Prefix(node, |items|, text, pos, e);
        }
        FewNear(MatchEnds(node, text, pos), pos, 1);
      } else {
        assert MatchEnds(node, text, pos) == PrefixEnds(node, |items|, text, pos);
      }
    case Alt(_) =>
    case Repeat(_, _, _) =>
    case CharSet(_, _) => FewNear(MatchEnds(node, text, pos), pos + 1, 1);
    case _ => FewNear(MatchEnds(node, text, pos), pos, 1);
  }

  // ---------- patterns that fit every text ----------

  /** The length of the longest match, for patterns without unbounded repeats. */
  function Longest(node: Node): Option<nat>
    decreases node, 1, 0
  {
    match node
    case CharSet(_, _) => Some(1)
    case Concat(items) => ItemsLongest(node, |items|)
    case Alt(alts) => AltsLongest(node, |alts|)
    case Repeat(child, _, max) =>
      var l := Longest(child);
      if max == UNBOUNDED || l.None? then None else Some(Product(if max > 1 then max else 1, l.value))
    case _ => Some(0)
  }

  function ItemsLongest(node: Node, n: nat): Option<nat>
    requires node.Concat? && n <= |node.items|
    decreases node, 0, n
  {
    if n == 0 then Some(0)
    else
      var before, last := ItemsLongest(node, n - 1), Longest(node.items[n - 1]);
      if before.None? || last.None? then None else Some(before.value + last.value)
  }

  function AltsLongest(node: Node, n: nat): Option<nat>
    requires node.Alt? && n <= |node.alts|
    decreases node, 0, n
  {
    if n == 0 then Some(0)
    else
      var before, last := AltsLongest(node, n - 1), Longest(node.alts[n - 1]);
      if before.None? || last.None? then None
      else Some(if before.value < last.value then last.value else before.value)
  }

  lemma {:induction false} ItemsLongestGrows(node: Node, k: nat, n: nat)
    requires node.Concat? && k <= n <= |node.items| && ItemsLongest(node, n).Some?
    ensures ItemsLongest(node, k).Some? && ItemsLongest(node, k).value <= ItemsLongest(node, n).value
    ensures k < n ==> Longest(node.items[k]).Some? && Longest(node.items[k]).value <= ItemsLongest(node, n).value
    decreases n
  {
    hide Longest;
    if k < n {
      ItemsLongestGrows(node, k, n - 1);
    }
  }

  lemma {:induction false} AltsLongestGrows(node: Node, k: nat, n: nat)
    requires node.Alt? && k < n <= |node.alts| && AltsLongest(node, n).Some?
    ensures Longest(node.alts[k]).Some? && Longest(node.alts[k]).value <= AltsLongest(node, n).value
    decreases n
  {
    hide Longest;
    if k < n - 1 {
      AltsLongestGrows(node, k, n - 1);
    }
  }

  lemma ProductGrows(a: nat, b: nat, l: nat)
    requires a <= b
    ensures Product(a, l) <= Product(b, l) && Product(a + 1, l) == Product(a, l) + l
  {
  }

  lemma {:induction false} MatchReach(node: Node, text: seq<nat>, i: nat, j: nat)
    requires Matches(node, text, i, j) && Longest(node).Some?
    ensures j <= i + Longest(node).value
    decreases node, 1, 0
  {
    hide Product;
    match node
    case Concat(items) => PrefixReach(node, |items|, text, i, j);
    case Alt(alts) =>
      var k :| 0 <= k < |alts| && Matches(alts[k], text, i, j);
      AltsLongestGrows(node, k, |alts|);
      MatchReach(alts[k], text, i, j);
    case Repeat(child, min, max) =>
      var n: nat :| InRange(n, min, max) && Times(child, n, text, i, j);
      TimesReach(child, n, text, i, j);
      ProductGrows(n, if max > 1 then max else 1, Longest(child).value);
    case _ =>
  }

  lemma {:induction false} PrefixReach(node: Node, n: nat, text: seq<nat>, i: nat, j: nat)
    requires node.Concat? && n <= |node.items| && Prefix(node, n, text, i, j) && ItemsLongest(node, n).Some?
    ensures j <= i + ItemsLongest(node, n).value
    decreases node, 0, n
  {
    if n > 0 {
      var k := PrefixLast(node, n - 1, text, i, j);
      PrefixReach(node, n - 1, text, i, k);
      MatchReach(node.items[n - 1], text, k, j);
    }
  }

  lemma {:induction false} TimesReach(child: Node, n: nat, text: seq<nat>, i: nat, j: nat)
    requires Times(child, n, text, i, j) && Longest(child).Some?
    ensures j <= i + Product(n, Longest(child).value)
    decreases child, 2, n
  {
    if n > 0 {
      var k := TimesLast(child, n - 1, text, i, j);
      TimesReach(child, n - 1, text, i, k);
      MatchReach(child, text, k, j);
      ProductGrows(n - 1, n, Longest(child).value);
    }
  }

  /** Without unbounded repeats, and with matches below the cap, every text has room. */
  lemma {:induction false} BoundedIsRoomy(node: Node, text: seq<nat>)
    requires Longest(node).Some? && Longest(node).value < 1024
    ensures Roomy(node, text)
    decreases node
  {
    hide Product, Matches, Prefix, Times;
    forall p: nat | p <= |text| ensures |MatchEnds(node, text, p)| <= POS_CAP {
      forall e | e in MatchEnds(node, text, p) ensures p <= e < p + POS_CAP {
        MatchesStayInside(node, text, p, e);
        MatchReach(node, text, p, e);
      }
      FewNear(MatchEnds(node, text, p), p, POS_CAP);
    }
    match node
    case Concat(items) =>
      forall k | 0 <= k < |items| ensures Roomy(items[k], text) {
        ItemsLongestGrows(node, k, |items|);
        BoundedIsRoomy(items[k], text);
      }
      forall k, p: nat | 0 < k <= |items| && p <= |text| ensures |PrefixEnds(node, k, text, p)| <= POS_CAP {
        ItemsLongestGrows(node, k, |items|);
        PrefixRoom(node, k, text, p);
      }
    case Alt(alts) =>
      forall k | 0 <= k < |alts| ensures Roomy(alts[k], text) {
        AltsLongestGrows(node, k, |alts|);
        BoundedIsRoomy(alts[k], text);
      }
    case Repeat(child, _, max) =>
      var rounds, l := if max > 1 then max else 1, Longest(child).value;
      OneProduct(l);
      ProductGrows(1, rounds, l);
      BoundedIsRoomy(child, text);
      forall n: nat, p: nat | n <= max && p <= |text| ensures |TimesEnds(child, n, text, p)| <= POS_CAP {
        ProductGrows(n, rounds, l);
        TimesRoom(child, n, text, p);
      }
    case _ =>
  }

  lemma OneProduct(l: nat)
    ensures Product(1, l) == l
  {
  }

  lemma PrefixRoom(node: Node, k: nat, text: seq<nat>, p: nat)
    requires node.Concat? && k <= |node.items| && p <= |text|
    requires ItemsLongest(node, k).Some? && ItemsLongest(node, k).value < POS_CAP
    ensures |PrefixEnds(node, k, text, p)| <= POS_CAP
  {
    hide Prefix;
    forall e | e in PrefixEnds(node, k, text, p) ensures p <= e < p + POS_CAP {
      PrefixStaysInside(node, k, text, p, e);
      PrefixReach(node, k, text, p, e);
    }
    FewNear(PrefixEnds(node, k, text, p), p, POS_CAP);
  }

  lemma TimesRoom(child: Node, n: nat, text: seq<nat>, p: nat)
    requires Longest(child).Some? && Product(n, Longest(child).value) < POS_CAP && p <= |text|
    ensures |TimesEnds(child, n, text, p)| <= POS_CAP
  {
    hide Times;
    forall e | e in TimesEnds(child, n, text, p) ensures p <= e < p + POS_CAP {
      TimesStayInside(child, n, text, p, e);
      TimesReach(child, n, text, p, e);
    }
    FewNear(TimesEnds(child, n, text, p), p, POS_CAP);
  }
}
