/** A dynamic block of RFC 1951 section 3.2.7, bit by bit
    (src/fmtool/src/deflate.rs). */
module DynamicBlocks {
  import opened Wrappers
  import opened Bits
  import opened CanonicalCode
  import opened HuffmanTables
  import opened Lz77
  import opened InflateSpec
  import opened DynamicTables
  import opened MessageSpec
  import Fixed = FixedCode

  // ---------- the lengths of the code lengths ----------

  const PLACES: seq<nat> := [16, 17, 18, 0, 8, 7, 9, 6, 10, 5, 11, 4, 12, 3, 13, 2, 14, 1, 15]

  function PlaceOf(symbol: nat): (i: nat)
    requires symbol < 19
    ensures i < 19
  {
    if symbol >= 16 then symbol - 16
    else if symbol == 0 then 3
    else if symbol >= 8 then 4 + 2 * (symbol - 8)
    else 3 + 2 * (8 - symbol)
  }

  lemma PlacesAre(i: nat)
    requires i < 19
    ensures PLACES[i] < 19 && PLACES[i] == OrderAt(i) && PlaceOf(PLACES[i]) == i
  {
  }

  lemma PlaceIs(symbol: nat)
    requires symbol < 19
    ensures OrderAt(PlaceOf(symbol)) == symbol
  {
  }

  /** The lengths are sent in a fixed order; those left out at the end are zero. */
  predicate Sent(cl: seq<nat>, given: nat) {
    && |cl| == 19 && 4 <= given <= 19 && (forall s :: 0 <= s < 19 ==> cl[s] < 8)
    && forall s :: 0 <= s < 19 && PlaceOf(s) >= given ==> cl[s] == 0
  }

  function ThreeBits(cl: seq<nat>, i: nat, given: nat): seq<bit>
    requires |cl| == 19 && i <= given <= 19
    decreases given - i
  {
    if i == given then []
    else
      PlacesAre(i);
      LsbBits(cl[PLACES[i]], 3) + ThreeBits(cl, i + 1, given)
  }

  function Values(cl: seq<nat>, given: nat): (vals: seq<nat>)
    requires |cl| == 19 && given <= 19
    ensures |vals| == given && forall i :: 0 <= i < given ==> vals[i] == cl[OrderAt(i)]
  {
    seq(given, i requires 0 <= i < given => cl[OrderAt(i)])
  }

  lemma {:induction false} ThreeBitsAre(cl: seq<nat>, i: nat, given: nat)
    requires |cl| == 19 && i <= given <= 19
    ensures ThreeBits(cl, i, given) == TriplesBits(Values(cl, given)[i..])
    decreases given - i
  {
    hide LsbBits;
    if i < given {
      PlacesAre(i);
      ThreeBitsAre(cl, i + 1, given);
      var vals := Values(cl, given)[i..];
      assert vals[0] == cl[OrderAt(i)] && vals[1..] == Values(cl, given)[i + 1..];
    }
  }

  lemma {:induction false} PlacedAt(vals: seq<nat>, symbol: nat)
    requires |vals| <= 19 && symbol < 19
    ensures Placed(vals)[symbol] == if PlaceOf(symbol) < |vals| then vals[PlaceOf(symbol)] else 0
    decreases |vals|
  {
    hide OrderAt;
    if vals != [] {
      var last := |vals| - 1;
      PlacedAt(vals[..last], symbol);
      PlaceIs(symbol);
      PlacesAre(last);
    }
  }

  lemma PlacedBack(cl: seq<nat>, given: nat)
    requires Sent(cl, given)
    ensures Placed(Values(cl, given)) == cl && Triples(Values(cl, given))
  {
    hide Placed;
    Pow2Small();
    forall s: nat | s < 19 ensures Placed(Values(cl, given))[s] == cl[s] {
      PlacedAt(Values(cl, given), s);
      PlaceIs(s);
    }
  }

  // ---------- the lengths of the two codes ----------

  /** One length, the last length some times more, or some zeros. */
  datatype Told = One(n: nat) | Again(n: nat) | Nothing(n: nat)

  ghost predicate Tellable(cl: seq<nat>, t: Told) {
    match t
    case One(n) => n <= 15 && Writable(cl, n)
    case Again(n) => 3 <= n <= 6 && Writable(cl, 16)
    case Nothing(n) => 3 <= n <= 138 && Writable(cl, if n <= 10 then 17 else 18)
  }

  ghost function ToldBits(cl: seq<nat>, t: Told): seq<bit>
    requires Tellable(cl, t)
  {
    match t
    case One(n) => Code(cl, n)
    case Again(n) => Code(cl, 16) + LsbBits(n - 3, 2)
    case Nothing(n) => if n <= 10 then Code(cl, 17) + LsbBits(n - 3, 3) else Code(cl, 18) + LsbBits(n - 11, 7)
  }

  ghost function AllToldBits(cl: seq<nat>, told: seq<Told>): seq<bit>
    requires forall i :: 0 <= i < |told| ==> Tellable(cl, told[i])
  {
    if told == [] then [] else ToldBits(cl, told[0]) + AllToldBits(cl, told[1..])
  }

  function Telling(told: seq<Told>, lengths: seq<nat>): Option<seq<nat>> {
    if told == [] then Some(lengths)
    else
      match told[0]
      case One(n) => Telling(told[1..], lengths + [n])
      case Again(n) =>
        if lengths == [] then None else Telling(told[1..], lengths + Copies(lengths[|lengths| - 1], n))
      case Nothing(n) => Telling(told[1..], lengths + Copies(0, n))
  }

  function RunOf(t: Told): Run {
    match t
    case One(n) => Len(n)
    case Again(n) => Repeat(if n >= 3 then n - 3 else 0)
    case Nothing(n) => if n <= 10 then Zeros(if n >= 3 then n - 3 else 0) else ManyZeros(n - 11)
  }

  function RunsOf(told: seq<Told>): seq<Run> {
    if told == [] then [] else [RunOf(told[0])] + RunsOf(told[1..])
  }

  lemma OneTold(cl: seq<nat>, t: Told, told: seq<Told>, lengths: seq<nat>)
    requires Tellable(cl, t) && Telling([t] + told, lengths).Some?
    ensures var r := RunOf(t);
            && RunWellFormed(r, lengths) && Writable(cl, RunSymbol(r)) && RunBits(cl, r) == ToldBits(cl, t)
            && Telling([t] + told, lengths) == Telling(told, ApplyRun(r, lengths))
  {
    hide Code, LsbBits, Writable;
    assert ([t] + told)[1..] == told;
    RunMeans(cl, lengths, t.n);
  }

  lemma {:induction false} TellingGrows(told: seq<Told>, lengths: seq<nat>)
    requires Telling(told, lengths).Some?
    ensures lengths <= Telling(told, lengths).value
  {
    if told != [] {
      match told[0]
      case One(n) => TellingGrows(told[1..], lengths + [n]);
      case Again(n) => TellingGrows(told[1..], lengths + Copies(lengths[|lengths| - 1], n));
      case Nothing(n) => TellingGrows(told[1..], lengths + Copies(0, n));
    }
  }

  lemma {:induction false} ToldAreRuns(cl: seq<nat>, told: seq<Told>, lengths: seq<nat>, all: seq<nat>)
    requires forall i :: 0 <= i < |told| ==> Tellable(cl, told[i])
    requires Telling(told, lengths) == Some(all)
    ensures RunsFill(cl, RunsOf(told), lengths, |all|)
    ensures ApplyRuns(cl, RunsOf(told), lengths, |all|) == all && RunsBits(cl, RunsOf(told)) == AllToldBits(cl, told)
    decreases |told|
  {
    hide Tellable, ToldBits, RunBits, RunWellFormed, ApplyRun, RunOf, RunSymbol, Writable, Telling;
    if told == [] {
      NothingTold(lengths);
    } else {
      var t, rest := told[0], told[1..];
      assert told == [t] + rest;
      OneTold(cl, t, rest, lengths);
      var next := ApplyRun(RunOf(t), lengths);
      TellingGrows(rest, next);
      ToldAreRuns(cl, rest, next, all);
      var runs := RunsOf(told);
      assert runs[0] == RunOf(t) && runs[1..] == RunsOf(rest);
    }
  }

  lemma NothingTold(lengths: seq<nat>)
    ensures Telling([], lengths) == Some(lengths)
  {
  }

  // ---------- the header ----------

  /** The three counts, the lengths of the code lengths, and the lengths of the two codes. */
  ghost predicate Announced(cl: seq<nat>, given: nat, told: seq<Told>, lit: seq<nat>, dist: seq<nat>) {
    && Sent(cl, given) && 257 <= |lit| <= 286 && 1 <= |dist| <= 30
    && (forall i :: 0 <= i < |told| ==> Tellable(cl, told[i])) && Telling(told, []) == Some(lit + dist)
  }

  ghost function AnnouncedBits(cl: seq<nat>, given: nat, told: seq<Told>, lit: seq<nat>, dist: seq<nat>): seq<bit>
    requires Announced(cl, given, told, lit, dist)
  {
    LsbBits(|lit| - 257, 5)
    + (LsbBits(|dist| - 1, 5) + (LsbBits(given - 4, 4) + (ThreeBits(cl, 0, given) + AllToldBits(cl, told))))
  }

  function HeaderOf(cl: seq<nat>, given: nat, told: seq<Told>, lit: seq<nat>, dist: seq<nat>): Header
    requires |cl| == 19 && given <= 19
  {
    Header(|lit|, |dist|, Values(cl, given), RunsOf(told))
  }

  predicate SomeUsed(dist: seq<nat>) {
    exists i :: 0 <= i < |dist| && dist[i] != 0
  }

  lemma HeaderIsAnnounced(cl: seq<nat>, given: nat, told: seq<Told>, lit: seq<nat>, dist: seq<nat>)
    requires Announced(cl, given, told, lit, dist)
    ensures var h := HeaderOf(cl, given, told, lit, dist);
            && HeaderFits(h) && HeaderBits(h) == AnnouncedBits(cl, given, told, lit, dist)
            && LitOf(h) == lit && DistOf(h) == if SomeUsed(dist) then Some(dist) else None
  {
    hide Tellable, RunsFill, LsbBits, TriplesBits, RunsBits, AllToldBits, ThreeBits, RunsOf, Telling, Placed;
    PlacedBack(cl, given);
    ThreeBitsAre(cl, 0, given);
    assert Values(cl, given)[0..] == Values(cl, given);
    ToldAreRuns(cl, told, [], lit + dist);
    SplitsThere(lit, dist);
  }

  lemma SplitsThere(lit: seq<nat>, dist: seq<nat>)
    ensures Split(|lit|, lit + dist, []) == Tables(lit, if SomeUsed(dist) then Some(dist) else None, [])
  {
    var all := lit + dist;
    assert all[..|lit|] == lit && all[|lit|..] == dist;
    if SomeUsed(dist) {
      var i :| 0 <= i < |dist| && dist[i] != 0;
      assert all[|lit| + i] != 0;
    } else {
      assert forall i :: |lit| <= i < |all| ==> all[i] == dist[i - |lit|];
    }
  }

  // ---------- the data ----------

  ghost predicate Writes(lit: seq<nat>, dist: seq<nat>, p: Fixed.Piece) {
    && Fixed.Allowed(p)
    && match p
       case Byte(b) => Writable(lit, b)
       case Back(len, distance) =>
         Writable(lit, Fixed.LengthParts(len).symbol) && Writable(dist, Fixed.DistanceParts(distance).symbol)
  }

  ghost function WordBitsOf(lit: seq<nat>, dist: seq<nat>, p: Fixed.Piece): seq<bit>
    requires Writes(lit, dist, p)
  {
    match p
    case Byte(b) => Code(lit, b)
    case Back(len, distance) =>
      var l, d := Fixed.LengthParts(len), Fixed.DistanceParts(distance);
      Code(lit, l.symbol) + (LsbBits(l.extra, l.digits) + (Code(dist, d.symbol) + LsbBits(d.extra, d.digits)))
  }

  ghost function WordsBits(lit: seq<nat>, dist: seq<nat>, pieces: seq<Fixed.Piece>): seq<bit>
    requires forall i :: 0 <= i < |pieces| ==> Writes(lit, dist, pieces[i])
  {
    if pieces == [] then [] else WordBitsOf(lit, dist, pieces[0]) + WordsBits(lit, dist, pieces[1..])
  }

  lemma WritableIsUsed(dist: seq<nat>, s: nat)
    requires Writable(dist, s)
    ensures SomeUsed(dist)
  {
    assert dist[s] != 0;
  }

  lemma PieceToken(lit: seq<nat>, dist: seq<nat>, used: Option<seq<nat>>, p: Fixed.Piece, history: seq<byte>)
      returns (t: Token)
    requires Writes(lit, dist, p) && Fixed.Resolved([p], history).Some?
    requires used == if SomeUsed(dist) then Some(dist) else None
    ensures TokenFits(lit, used, t) && TokenBits(lit, used, t) == WordBitsOf(lit, dist, p)
    ensures InHistory(t, |history|) && Fixed.Resolved([p], history) == Some(Apply(t, history))
  {
    hide LsbBits, Code, Writable, Fixed.LengthParts, Fixed.DistanceParts, CopyBack, LengthBase, LengthExtra, DistBase,
         DistExtra, Pow2;
    assert [p][1..] == [];
    match p
    case Byte(b) => t := Literal(b);
    case Back(len, distance) =>
      t := Fixed.CopyToken(len, distance);
      WritableIsUsed(dist, t.dsym);
  }

  lemma {:induction false} PiecesFit(lit: seq<nat>, dist: seq<nat>, used: Option<seq<nat>>, pieces: seq<Fixed.Piece>,
                                     history: seq<byte>) returns (ts: seq<Token>)
    requires forall i :: 0 <= i < |pieces| ==> Writes(lit, dist, pieces[i])
    requires Fixed.Resolved(pieces, history).Some? && used == if SomeUsed(dist) then Some(dist) else None
    ensures TokensFit(lit, used, ts) && BlockBits(lit, used, ts) == WordsBits(lit, dist, pieces) + Code(lit, 256)
    ensures DistancesOk(ts, |history|) && Some(Expand(ts, history)) == Fixed.Resolved(pieces, history)
    decreases |pieces|
  {
    hide Code, TokenFits, TokenBits, Writes, WordBitsOf, InHistory, Apply, TokenSize, CopyBack, SomeUsed;
    if pieces == [] {
      ts := [];
      assert [] + Code(lit, 256) == Code(lit, 256);
    } else {
      Fixed.ResolvedFirst(pieces, history);
      var t := PieceToken(lit, dist, used, pieces[0], history);
      var more := PiecesFit(lit, dist, used, pieces[1..], Apply(t, history));
      ts := [t] + more;
      assert ts[1..] == more;
      Assoc(WordBitsOf(lit, dist, pieces[0]), WordsBits(lit, dist, pieces[1..]), Code(lit, 256));
    }
  }

  lemma DynamicFlags(h: Header, tokens: seq<Token>)
    ensures FlagBits(true, Dynamic(h, tokens)) == [1, 0, 1]
  {
    assert LsbBits(1, 1) == [1] && LsbBits(2, 2) == [0, 1];
  }

  /** A final dynamic block, bit by bit: whatever codes its header announces, the bytes and back
      references written in them are inflated to the text they stand for. */
  lemma DynamicBlockIsRead(cl: seq<nat>, given: nat, told: seq<Told>, lit: seq<nat>, dist: seq<nat>,
                           pieces: seq<Fixed.Piece>, trailing: seq<bit>, history: seq<byte>)
    requires Announced(cl, given, told, lit, dist) && Writable(lit, 256)
    requires forall i :: 0 <= i < |pieces| ==> Writes(lit, dist, pieces[i])
    requires Fixed.Resolved(pieces, history).Some?
    requires |Fixed.Resolved(pieces, history).value| <= |history| + 1048576
    ensures MessageData([1, 0, 1] + (AnnouncedBits(cl, given, told, lit, dist)
                                     + (WordsBits(lit, dist, pieces) + Code(lit, 256)) + trailing), history, 0)
            == Finished(Fixed.Resolved(pieces, history).value, true)
  {
    hide Code, Writable, BlockBits, TokensFit, MessageData, Announced, AnnouncedBits, HeaderOf, HeaderFits, HeaderBits,
         LitOf, DistOf, Writes, MessageBits, IsMessage, FlagBits, BlocksInHistory, Expand, DistancesOk, WordsBits,
         Fixed.Resolved, SomeUsed;
    HeaderGoes(cl, given, told, lit, dist);
    HeaderIsAnnounced(cl, given, told, lit, dist);
    var h := HeaderOf(cl, given, told, lit, dist);
    var ts := PiecesFit(lit, dist, DistOf(h), pieces, history);
    var block := Dynamic(h, ts);
    DynamicFlags(h, ts);
    Fixed.OneBlock(block, trailing, history);
    MessageRoundTrip([block], true, trailing, history, 0);
  }

  lemma HeaderGoes(cl: seq<nat>, given: nat, told: seq<Told>, lit: seq<nat>, dist: seq<nat>)
    requires Announced(cl, given, told, lit, dist)
    ensures |cl| == 19 && given <= 19
  {
  }
}
