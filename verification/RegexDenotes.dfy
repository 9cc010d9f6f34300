/** What a written pattern matches, said without the parser and without nodes, and that the
    compiled pattern matches exactly this (src/fastapi_mojo_rs/src/bridge/regex.rs). */
module RegexDenotes {
  import opened Wrappers
  import opened Bits
  import opened Decimals
  import opened RegexMeaning
  import opened RegexParser
  import opened RegexWritten

  // ---------- characters ----------

  predicate Digit(x: nat) {
    48 <= x <= 57
  }

  predicate Letter(x: nat) {
    65 <= x <= 90 || 97 <= x <= 122
  }

  predicate Word(x: nat) {
    Digit(x) || Letter(x) || x == 95
  }

  predicate Blank(x: nat) {
    9 <= x <= 13 || x == 32
  }

  /** The character an escape stands for. */
  function Escapee(e: byte): nat {
    match e
    case 110 => 10
    case 116 => 9
    case 114 => 13
    case 102 => 12
    case 118 => 11
    case 97 => 7
    case 48 => 0
    case _ => e
  }

  /** What \d, \D, \w, \W, \s, \S and every other escape match. */
  predicate InEscape(e: byte, x: nat) {
    if e == 'd' as byte then Digit(x)
    else if e == 'D' as byte then x < 128 && !Digit(x) && !Letter(x)
    else if e == 'w' as byte then Word(x)
    else if e == 'W' as byte then x < 128 && !Word(x)
    else if e == 's' as byte then Blank(x)
    else if e == 'S' as byte then x < 128 && !Blank(x)
    else x == Escapee(e)
  }

  predicate InMember(m: Member, x: nat) {
    match m
    case One(c) => x == c
    case Range(lo, hi) => lo <= x <= hi
    case Escaped(e) => InEscape(e, x)
    case Dropped(_, e) => InEscape(e, x)
  }

  predicate WordAt(text: seq<nat>, i: int) {
    0 <= i < |text| && Word(text[i])
  }

  // ---------- patterns ----------

  function Number(n: seq<byte>): nat {
    if AllDigits(n) then DecimalValue(n) else 0
  }

  /** How many matches in a row the quantifier allows; the largest 32-bit number stands for no
      limit even where it is written. */
  predicate Allows(q: Quant, k: nat) {
    match q
    case Once => k == 1
    case Star => true
    case Plus => k >= 1
    case Maybe => k <= 1
    case Exactly(n) => k == Number(n) || (k > Number(n) && Number(n) == 0xffff_ffff)
    case AtLeast(n) => k >= Number(n)
    case FromTo(n, m) => Number(n) <= k && (k <= Number(m) || Number(m) == 0xffff_ffff)
    case OpenExactly(n) => k == Number(n) || (k > Number(n) && Number(n) == 0xffff_ffff)
    case OpenFromTo(n, m) => Number(n) <= k && (k <= Number(m) || Number(m) == 0xffff_ffff)
  }

  ghost predicate AtomMeans(a: Atom, text: seq<nat>, i: nat, j: nat)
    decreases a, 0, 0
  {
    match a
    case Start => i == 0 == j
    case End => i == j <= |text| && (i == |text| || (i + 1 == |text| && text[i] == 10))
    case Dot => i < |text| && j == i + 1 && text[i] < 128 && text[i] != 10
    case Boundary => i == j <= |text| && WordAt(text, i - 1) != WordAt(text, i)
    case Plain(c) => i < |text| && j == i + 1 && text[i] == c
    case Escape(e) => i < |text| && j == i + 1 && InEscape(e, text[i])
    case Brackets(negated, members) =>
      i < |text| && j == i + 1 && (exists k :: 0 <= k < |members| && InMember(members[k], text[i])) != negated
    case Group(alts) => AltsMean(alts, text, i, j)
  }

  /** n matches of the atom in a row. */
  ghost predicate TimesMean(a: Atom, n: nat, text: seq<nat>, i: nat, j: nat)
    decreases a, 1, n
  {
    if n == 0 then i == j else exists k: nat :: TimesMean(a, n - 1, text, i, k) && AtomMeans(a, text, k, j)
  }

  ghost predicate ItemMeans(it: Item, text: seq<nat>, i: nat, j: nat)
    decreases it, 0, 0
  {
    exists n: nat :: Allows(it.quant, n) && TimesMean(it.atom, n, text, i, j)
  }

  /** One item after the other. */
  ghost predicate ItemsMean(items: seq<Item>, text: seq<nat>, i: nat, j: nat)
    decreases items, 0, 0
  {
    if items == [] then i == j
    else exists k: nat :: ItemMeans(items[0], text, i, k) && ItemsMean(items[1..], text, k, j)
  }

  ghost predicate BranchMeans(b: Branch, text: seq<nat>, i: nat, j: nat)
    decreases b, 0, 0
  {
    ItemsMean(b.items, text, i, j)
  }

  /** One of the alternatives. */
  ghost predicate AltsMean(alts: seq<Branch>, text: seq<nat>, i: nat, j: nat)
    decreases alts, 0, 0
  {
    exists k :: 0 <= k < |alts| && BranchMeans(alts[k], text, i, j)
  }

  // ---------- character sets ----------

  lemma EscapeSetIs(e: byte, x: nat)
    requires e != 98
    ensures x in EscapeSet(e) <==> InEscape(e, x)
  {
  }

  lemma MemberSetIs(m: Member, x: nat, after: seq<byte>)
    requires GoodMember(m, after)
    ensures x in MemberSet(m) <==> InMember(m, x)
  {
    hide EscapeSet, InEscape;
    match m
    case One(_) =>
    case Range(lo, hi) => assert Between(x, lo, hi) <==> lo <= x <= hi;
    case Escaped(e) => EscapeSetIs(e, x);
    case Dropped(_, e) => EscapeSetIs(e, x);
  }

  lemma {:induction false} MembersSetIs(ms: seq<Member>, got: set<nat>, after: seq<byte>, x: nat)
    requires GoodMembers(ms, after)
    ensures x in MembersSet(ms, got) <==> x in got || exists k :: 0 <= k < |ms| && InMember(ms[k], x)
    decreases |ms|
  {
    hide MemberSet, InMember, GoodMember, MembersText;
    if ms != [] {
      MemberSetIs(ms[0], x, MembersText(ms[1..]) + after);
      MembersSetIs(ms[1..], got + MemberSet(ms[0]), after, x);
      assert forall k :: 0 < k < |ms| ==> ms[k] == ms[1..][k - 1];
    }
  }

  lemma DotSetIs(x: nat)
    ensures x in DotSet() <==> x < 128 && x != 10
  {
    assert Between(x, 0, 0x7f) <==> x <= 0x7f;
  }

  // ---------- sequences ----------

  /** The nodes one after the other, from the front. */
  ghost predicate Chain(nodes: seq<Node>, text: seq<nat>, i: nat, j: nat)
    decreases |nodes|
  {
    if nodes == [] then i == j
    else exists k: nat :: Matches(nodes[0], text, i, k) && Chain(nodes[1..], text, k, j)
  }

  lemma {:induction false} ChainSnoc(nodes: seq<Node>, last: Node, text: seq<nat>, i: nat, j: nat)
    ensures Chain(nodes + [last], text, i, j)
            <==> exists k: nat :: Chain(nodes, text, i, k) && Matches(last, text, k, j)
    decreases |nodes|
  {
    hide Matches;
    var all := nodes + [last];
    if nodes == [] {
      assert all[1..] == [] && all[0] == last;
      assert Chain([], text, i, i) && Chain([], text, j, j);
      if Chain(all, text, i, j) {
        var k: nat :| Matches(all[0], text, i, k) && Chain(all[1..], text, k, j);
      }
      if Matches(last, text, i, j) {
        assert Matches(all[0], text, i, j) && Chain(all[1..], text, j, j);
      }
    } else {
      assert all[0] == nodes[0] && all[1..] == nodes[1..] + [last];
      if Chain(all, text, i, j) {
        var m: nat :| Matches(all[0], text, i, m) && Chain(all[1..], text, m, j);
        ChainSnoc(nodes[1..], last, text, m, j);
        var k: nat :| Chain(nodes[1..], text, m, k) && Matches(last, text, k, j);
        assert Chain(nodes, text, i, k);
      }
      if k: nat :| Chain(nodes, text, i, k) && Matches(last, text, k, j) {
        var m: nat :| Matches(nodes[0], text, i, m) && Chain(nodes[1..], text, m, k);
        assert Chain(nodes[1..], text, m, k) && Matches(last, text, k, j);
        ChainSnoc(nodes[1..], last, text, m, j);
        assert Matches(all[0], text, i, m) && Chain(all[1..], text, m, j);
      }
    }
  }

  lemma {:induction false} PrefixIsChain(node: Node, n: nat, text: seq<nat>, i: nat, j: nat)
    requires node.Concat? && n <= |node.items|
    ensures Prefix(node, n, text, i, j) <==> Chain(node.items[..n], text, i, j)
    decreases n
  {
    hide Matches;
    if n > 0 {
      var front, last := node.items[..n - 1], node.items[n - 1];
      assert node.items[..n] == front + [last];
      ChainSnoc(front, last, text, i, j);
      forall k: nat ensures Prefix(node, n - 1, text, i, k) <==> Chain(front, text, i, k) {
        PrefixIsChain(node, n - 1, text, i, k);
      }
      if Prefix(node, n, text, i, j) {
        var k := PrefixLast(node, n - 1, text, i, j);
        assert Chain(front, text, i, k) && Matches(last, text, k, j);
      }
      if k: nat :| Chain(front, text, i, k) && Matches(last, text, k, j) {
        PrefixStep(node, n - 1, text, i, k, j);
      }
    }
  }

  lemma SequenceIsChain(nodes: seq<Node>, text: seq<nat>, i: nat, j: nat)
    requires i <= |text|
    ensures Matches(Sequence(nodes), text, i, j) <==> Chain(nodes, text, i, j)
  {
    if |nodes| == 1 {
      assert nodes[1..] == [];
      assert Chain([], text, j, j);
    } else if nodes != [] {
      PrefixIsChain(Concat(nodes), |nodes|, text, i, j);
      assert nodes[..|nodes|] == nodes;
    }
  }

  // ---------- the compiled pattern ----------

  /** The node matches where the atom means to. */
  lemma {:induction false} AtomIsMeant(a: Atom, text: seq<nat>, i: nat, j: nat)
    requires GoodAtom(a) && i <= |text|
    ensures Matches(AtomNode(a), text, i, j) <==> AtomMeans(a, text, i, j)
    decreases a, 0, 0
  {
    hide EscapeSet, InEscape, DotSet, MembersSet, InMember, GoodMembers;
    match a
    case Dot => if i < |text| { DotSetIs(text[i]); }
    case Escape(e) => if i < |text| { EscapeSetIs(e, text[i]); }
    case Brackets(negated, members) =>
      if i < |text| {
        MembersSetIs(members, {}, [93], text[i]);
      }
    case Group(alts) => AltsAreMeant(alts, [41], text, i, j);
    case _ =>
  }

  lemma {:induction false} TimesAreMeant(a: Atom, n: nat, text: seq<nat>, i: nat, j: nat)
    requires GoodAtom(a) && i <= |text|
    ensures Times(AtomNode(a), n, text, i, j) <==> TimesMean(a, n, text, i, j)
    ensures TimesMean(a, n, text, i, j) ==> j <= |text|
    decreases a, 1, n
  {
    hide Matches, AtomMeans;
    if n > 0 {
      forall k: nat
        ensures Times(AtomNode(a), n - 1, text, i, k) <==> TimesMean(a, n - 1, text, i, k)
        ensures TimesMean(a, n - 1, text, i, k) ==>
                  k <= |text| && (Matches(AtomNode(a), text, k, j) <==> AtomMeans(a, text, k, j))
      {
        TimesAreMeant(a, n - 1, text, i, k);
        if k <= |text| {
          AtomIsMeant(a, text, k, j);
        }
      }
      if k: nat :| TimesMean(a, n - 1, text, i, k) && AtomMeans(a, text, k, j) {
        MatchesStayInside(AtomNode(a), text, k, j);
      }
    }
  }

  lemma OnceIsMatch(node: Node, text: seq<nat>, i: nat, j: nat)
    ensures Times(node, 1, text, i, j) <==> Matches(node, text, i, j)
  {
    hide Matches;
    assert Times(node, 0, text, i, i);
    if Times(node, 1, text, i, j) {
      var k := TimesLast(node, 0, text, i, j);
    }
    if Matches(node, text, i, j) {
      TimesStep(node, 0, text, i, i, j);
    }
  }

  /** The bounds of the node allow what the quantifier allows. */
  lemma QuantIsMeant(node: Node, q: Quant, after: seq<byte>, n: nat)
    requires GoodQuant(q, after) && !q.Once?
    ensures QuantNode(node, q).Repeat? && QuantNode(node, q).child == node
    ensures InRange(n, QuantNode(node, q).min, QuantNode(node, q).max) <==> Allows(q, n)
  {
    hide DecimalValue;
  }

  lemma {:induction false} ItemIsMeant(it: Item, after: seq<byte>, text: seq<nat>, i: nat, j: nat)
    requires GoodItem(it, after) && i <= |text|
    ensures Matches(ItemNode(it), text, i, j) <==> ItemMeans(it, text, i, j)
    decreases it, 0, 0
  {
    hide AtomMeans, TimesMean, Times, GoodAtom, GoodQuant, Allows, AtomNode, QuantNode;
    var node := AtomNode(it.atom);
    forall n: nat ensures Times(node, n, text, i, j) <==> TimesMean(it.atom, n, text, i, j) {
      TimesAreMeant(it.atom, n, text, i, j);
    }
    if it.quant.Once? {
      OnceIsMatch(node, text, i, j);
      OnlyOnce(node);
    } else {
      QuantIsMeant(node, it.quant, after, 0);
      forall n: nat
        ensures InRange(n, QuantNode(node, it.quant).min, QuantNode(node, it.quant).max) <==> Allows(it.quant, n)
      {
        QuantIsMeant(node, it.quant, after, n);
      }
    }
  }

  lemma OnlyOnce(node: Node)
    ensures QuantNode(node, Once) == node && forall n: nat :: Allows(Once, n) <==> n == 1
  {
  }

  lemma {:induction false} ItemsAreMeant(items: seq<Item>, after: seq<byte>, text: seq<nat>, i: nat, j: nat)
    requires GoodItems(items, after) && i <= |text|
    ensures Chain(ItemNodes(items), text, i, j) <==> ItemsMean(items, text, i, j)
    decreases items, 0, 0
  {
    hide Matches, ItemMeans, GoodItem, ItemsText, ItemNode;
    if items != [] {
      var nodes := ItemNodes(items);
      assert nodes[0] == ItemNode(items[0]) && nodes[1..] == ItemNodes(items[1..]);
      forall k: nat
        ensures Matches(nodes[0], text, i, k) <==> ItemMeans(items[0], text, i, k)
        ensures Matches(nodes[0], text, i, k) ==>
                  (Chain(nodes[1..], text, k, j) <==> ItemsMean(items[1..], text, k, j))
      {
        ItemIsMeant(items[0], ItemsText(items[1..]) + after, text, i, k);
        if Matches(nodes[0], text, i, k) {
          MatchesStayInside(nodes[0], text, i, k);
          ItemsAreMeant(items[1..], after, text, k, j);
        }
      }
    }
  }

  lemma {:induction false} BranchIsMeant(b: Branch, after: seq<byte>, text: seq<nat>, i: nat, j: nat)
    requires GoodBranch(b, after) && i <= |text|
    ensures Matches(BranchNode(b), text, i, j) <==> BranchMeans(b, text, i, j)
    decreases b, 0, 0
  {
    hide Matches, Chain, ItemsMean, GoodItems, ItemNodes;
    ItemsAreMeant(b.items, after, text, i, j);
    SequenceIsChain(ItemNodes(b.items), text, i, j);
  }

  lemma {:induction false} BranchAt(alts: seq<Branch>, after: seq<byte>, k: nat) returns (then_: seq<byte>)
    requires k < |alts| && GoodAlts(alts, after)
    ensures GoodBranch(alts[k], then_) && AltNodes(alts)[k] == BranchNode(alts[k])
    decreases |alts|
  {
    hide GoodBranch, BranchNode, AltsText;
    if |alts| == 1 {
      then_ := after;
    } else if k == 0 {
      then_ := [124] + (AltsText(alts[1..]) + after);
    } else {
      then_ := BranchAt(alts[1..], after, k - 1);
    }
  }

  lemma {:induction false} AltsAreMeant(alts: seq<Branch>, after: seq<byte>, text: seq<nat>, i: nat, j: nat)
    requires alts != [] && GoodAlts(alts, after) && i <= |text|
    ensures Matches(Choice(AltNodes(alts)), text, i, j) <==> AltsMean(alts, text, i, j)
    decreases alts, 0, 0
  {
    hide BranchMeans, GoodAlts, GoodBranch, AltNodes, BranchNode;
    var nodes := AltNodes(alts);
    forall k | 0 <= k < |alts| ensures Matches(nodes[k], text, i, j) <==> BranchMeans(alts[k], text, i, j) {
      var then_ := BranchAt(alts, after, k);
      BranchIsMeant(alts[k], then_, text, i, j);
    }
  }

  /** A pattern that compiles is the text of a syntax tree, and its node matches from i to j
      exactly where the tree means to. */
  lemma CompiledMeans(pattern: seq<byte>) returns (alts: seq<Branch>)
    requires Compile(pattern).Ok?
    ensures Writes(alts, pattern)
    ensures forall text: seq<nat>, i: nat, j: nat :: i <= |text| ==>
              (Matches(Compile(pattern).value, text, i, j) <==> AltsMean(alts, text, i, j))
  {
    hide Compile, Matches, AltsMean, AltNodes;
    alts := CompiledIsWritten(pattern);
    WrittenMeans(alts, pattern);
  }

  /** The same for every text of a syntax tree: so two trees with the same text mean the same. */
  lemma WrittenMeans(alts: seq<Branch>, pattern: seq<byte>)
    requires Writes(alts, pattern)
    ensures Compile(pattern).Ok?
    ensures forall text: seq<nat>, i: nat, j: nat :: i <= |text| ==>
              (Matches(Compile(pattern).value, text, i, j) <==> AltsMean(alts, text, i, j))
  {
    hide Compile, Matches, AltsMean, AltNodes, GoodAlts;
    WrittenCompiles(alts, pattern);
    forall text: seq<nat>, i: nat, j: nat | i <= |text|
      ensures Matches(Choice(AltNodes(alts)), text, i, j) <==> AltsMean(alts, text, i, j)
    {
      AltsAreMeant(alts, [], text, i, j);
    }
  }

  ghost predicate MeansSomewhere(alts: seq<Branch>, text: seq<nat>) {
    exists i: nat, j: nat :: i <= |text| && AltsMean(alts, text, i, j)
  }

  lemma MeantSomewhere(alts: seq<Branch>, text: seq<nat>, i: nat, j: nat)
    requires i <= |text| && AltsMean(alts, text, i, j)
    ensures MeansSomewhere(alts, text)
  {
  }

  /** Some part of the text matches the compiled pattern exactly if the tree means one. */
  lemma SomewhereMeans(alts: seq<Branch>, pattern: seq<byte>, text: seq<nat>)
    requires Writes(alts, pattern)
    ensures Compile(pattern).Ok?
    ensures MatchesSomewhere(Compile(pattern).value, text) <==> MeansSomewhere(alts, text)
  {
    hide Compile, Writes;
    WrittenMeans(alts, pattern);
    var node := Compile(pattern).value;
    if MatchesSomewhere(node, text) {
      var i: nat, j: nat :| Matches(node, text, i, j);
      StartInText(node, text, i, j);
      MeantSomewhere(alts, text, i, j);
    }
    if MeansSomewhere(alts, text) {
      var i: nat, j: nat :| i <= |text| && AltsMean(alts, text, i, j);
      FoundSomewhere(node, text, i, j);
    }
  }

  lemma StartInText(node: Node, text: seq<nat>, i: nat, j: nat)
    requires Matches(node, text, i, j)
    ensures i <= |text|
  {
  }

  lemma FoundSomewhere(node: Node, text: seq<nat>, i: nat, j: nat)
    requires Matches(node, text, i, j)
    ensures MatchesSomewhere(node, text)
  {
  }

  // ---------- two habits of other engines that this one does not share ----------

  lemma OneItem(it: Item)
    requires GoodItem(it, [])
    ensures Writes([Branch([it])], ItemText(it))
  {
    var items := [it];
    assert items[1..] == [];
    assert ItemsText([]) + [] == [] && ItemText(it) + [] == ItemText(it);
    assert ItemsText(items) == ItemText(it);
    assert GoodItems([], []) && GoodItems(items, []);
    assert GoodBranch(Branch(items), []);
    assert BranchText(Branch(items)) == ItemText(it);
  }

  lemma TwoItems(a: Item, b: Item)
    requires GoodItem(a, ItemText(b)) && GoodItem(b, [])
    ensures Writes([Branch([a, b])], ItemText(a) + ItemText(b))
  {
    var items := [a, b];
    assert items[1..] == [b] && [b][1..] == [];
    assert ItemsText([]) + [] == [] && ItemText(b) + [] == ItemText(b);
    assert ItemsText([b]) == ItemText(b);
    assert GoodItems([], []) && GoodItems([b], []) && GoodItems(items, []);
    assert GoodBranch(Branch(items), []);
    assert BranchText(Branch(items)) == ItemText(a) + ItemText(b);
  }

  lemma TimesOnce(a: Atom, text: seq<nat>, i: nat, j: nat)
    requires TimesMean(a, 1, text, i, j)
    ensures AtomMeans(a, text, i, j)
  {
    hide AtomMeans;
    var k: nat :| TimesMean(a, 1 - 1, text, i, k) && AtomMeans(a, text, k, j);
  }

  const LAZY: seq<byte> := [97, 43, 63]

  /** `a+?` is no lazy repeat: the question mark stands for itself, so that every match ends
      with one. */
  lemma LazyMarkIsLiteral(text: seq<nat>, j: nat)
    ensures var alts := [Branch([Item(Plain(97), Plus), Item(Plain(63), Once)])];
            && Writes(alts, LAZY)
            && (AltsMean(alts, text, 0, j) ==> 0 < j <= |text| && text[j - 1] == 63)
  {
    hide AtomMeans, TimesMean, ItemMeans;
    var plus, mark := Item(Plain(97), Plus), Item(Plain(63), Once);
    var b := Branch([plus, mark]);
    assert ItemText(plus) == [97, 43] && ItemText(mark) == [63] && ItemText(plus) + ItemText(mark) == LAZY;
    TwoItems(plus, mark);
    if AltsMean([b], text, 0, j) {
      assert BranchMeans(b, text, 0, j);
      LastMeans(plus, mark, text, j);
    }
  }

  lemma LastMeans(a: Item, mark: Item, text: seq<nat>, j: nat)
    requires mark == Item(Plain(63), Once) && ItemsMean([a, mark], text, 0, j)
    ensures 0 < j <= |text| && text[j - 1] == 63
  {
    hide TimesMean;
    assert [a, mark][1..] == [mark] && [mark][1..] == [];
    var k: nat :| ItemMeans(a, text, 0, k) && ItemsMean([a, mark][1..], text, k, j);
    assert ItemsMean([mark], text, k, j);
    var m: nat :| ItemMeans([mark][0], text, k, m) && ItemsMean([mark][1..], text, m, j);
    assert m == j;
    var n: nat :| Allows(Once, n) && TimesMean(mark.atom, n, text, k, j);
    TimesOnce(mark.atom, text, k, j);
  }

  /** `[a-\d]` matches digits only: the `a` is lost, and so is the dash. */
  lemma RangeLosesItsStart(x: nat)
    ensures var atom := Brackets(false, [Dropped(97, 100)]);
            && Writes([Branch([Item(atom, Once)])], [91, 97, 45, 92, 100, 93])
            && (AtomMeans(atom, [x], 0, 1) <==> Digit(x))
  {
    var members := [Dropped(97, 100)];
    var atom := Brackets(false, members);
    var item := Item(atom, Once);
    assert members[1..] == [];
    assert MembersText(members) == [97, 45, 92, 100];
    assert ItemText(item) == [91, 97, 45, 92, 100, 93];
    assert GoodMembers([], [93]) && GoodMembers(members, [93]);
    assert MembersText(members)[..1] == [97];
    OneItem(item);
    if Digit(x) {
      assert InMember(members[0], [x][0]);
    }
  }
}
