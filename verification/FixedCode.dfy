/** The fixed code of RFC 1951 section 3.2.6, word by word, and a message in it. */
module FixedCode {
  import opened Wrappers
  import opened Bits
  import opened CanonicalCode
  import opened HuffmanTables
  import opened Lz77
  import opened InflateSpec
  import opened MessageSpec
  import opened BitReaders
  import opened Inflaters

  /** How many of the numbers below n lie from a up to, not including, b. */
  function Among(n: nat, a: nat, b: nat): nat
    requires a <= b
  {
    if n <= a then 0 else if n <= b then n - a else b - a
  }

  lemma {:induction false} FixedCounts(n: nat, k: nat)
    requires n <= 288
    ensures CountIn(FixedLiteralLengths()[..n], k)
            == if k == 7 then Among(n, 256, 280)
               else if k == 8 then Among(n, 0, 144) + Among(n, 280, 288)
               else if k == 9 then Among(n, 144, 256)
               else 0
    decreases n
  {
    if n > 0 {
      var all := FixedLiteralLengths();
      assert all[..n][..n - 1] == all[..n - 1];
      FixedCounts(n - 1, k);
    }
  }

  lemma FixedFirst()
    ensures var count := Counts(FixedLiteralLengths());
            First(count, 7) == 0 && First(count, 8) == 0x30 && First(count, 9) == 0x190
  {
    var all := FixedLiteralLengths();
    var count := Counts(all);
    assert all[..288] == all;
    forall k | 0 < k < 10
      ensures count[k] == if k == 7 then 24 else if k == 8 then 152 else if k == 9 then 112 else 0
    {
      FixedCounts(288, k);
    }
    NothingShorter(count, 7);
  }

  lemma {:induction false} NothingShorter(count: seq<nat>, k: nat)
    requires k <= |count| && forall j :: 0 <= j < k ==> count[j] == 0
    ensures First(count, k) == 0
    decreases k
  {
    if k > 0 {
      NothingShorter(count, k - 1);
    }
  }

  /** The table of section 3.2.6: each code word, most significant bit first. */
  lemma FixedLiteralCode(s: nat)
    requires s < 288
    ensures AllShort(FixedLiteralLengths())
    ensures Code(FixedLiteralLengths(), s)
            == if s < 144 then MsbBits(0x30 + s, 8)
               else if s < 256 then MsbBits(0x190 + s - 144, 9)
               else if s < 280 then MsbBits(s - 256, 7)
               else MsbBits(0xC0 + s - 280, 8)
  {
    hide MsbBits, Counts;
    FixedCodesFit();
    FixedFirst();
    FixedCounts(s, FixedLiteralLengths()[s]);
  }

  lemma {:induction false} DistanceCounts(n: nat, k: nat)
    requires n <= 30
    ensures CountIn(FixedDistanceLengths()[..n], k) == if k == 5 then n else 0
    decreases n
  {
    if n > 0 {
      assert FixedDistanceLengths()[..n][..n - 1] == FixedDistanceLengths()[..n - 1];
      DistanceCounts(n - 1, k);
    }
  }

  /** Distance codes are plain five-bit numbers. */
  lemma FixedDistanceCode(s: nat)
    requires s < 30
    ensures AllShort(FixedDistanceLengths()) && Code(FixedDistanceLengths(), s) == MsbBits(s, 5)
  {
    hide MsbBits;
    FixedCodesFit();
    var all := FixedDistanceLengths();
    var count := Counts(all);
    assert all[..30] == all;
    forall k | 0 < k < 5 ensures count[k] == 0 {
      DistanceCounts(30, k);
    }
    NothingShorter(count, 5);
    DistanceCounts(s, 5);
  }

  // ---------- the classes of lengths and distances ----------

  lemma LengthExtrasLow(s: nat)
    requires 261 <= s < 273
    ensures LengthExtra(s) == (s - 257) / 4 - 1
  {
  }

  lemma LengthExtrasHigh(s: nat)
    requires 273 <= s < 285
    ensures LengthExtra(s) == (s - 257) / 4 - 1
  {
  }

  /** Four length classes for each number of extra bits (section 3.2.5). */
  lemma {:induction false} LengthClass(e: nat, m: nat)
    requires e <= 5 && 4 <= m < 8
    ensures LengthExtra(257 + 4 * e + m) == e && LengthBase(257 + 4 * e + m) == 3 + m * Pow2(e)
    decreases e, m
  {
    hide LengthBase, LengthExtra;
    var s := 257 + 4 * e + m;
    if s < 273 {
      LengthExtrasLow(s);
    } else {
      LengthExtrasHigh(s);
    }
    if m > 4 {
      LengthClass(e, m - 1);
      LengthStep(s - 1);
    } else if e > 0 {
      LengthClass(e - 1, 7);
      LengthStep(s - 1);
    } else {
      FirstClasses();
    }
  }

  lemma FirstClasses()
    ensures LengthBase(261) == 7 && DistBase(2) == 3
  {
  }

  lemma ShortLengths(v: nat)
    requires v < 4
    ensures LengthExtra(257 + v) == 0 && LengthBase(257 + v) == 3 + v
    ensures LengthExtra(285) == 0 && LengthBase(285) == 258
  {
  }

  lemma DistanceExtrasLow(s: nat)
    requires 2 <= s < 16
    ensures DistExtra(s) == s / 2 - 1
  {
  }

  lemma DistanceExtrasHigh(s: nat)
    requires 16 <= s < 30
    ensures DistExtra(s) == s / 2 - 1
  {
  }

  /** Two distance classes for each number of extra bits. */
  lemma {:induction false} DistanceClass(e: nat, m: nat)
    requires e <= 13 && 2 <= m < 4
    ensures DistExtra(2 * e + m) == e && DistBase(2 * e + m) == 1 + m * Pow2(e)
    decreases e, m
  {
    hide DistBase, DistExtra, Pow2;
    var s := 2 * e + m;
    if s < 16 {
      DistanceExtrasLow(s);
    } else {
      DistanceExtrasHigh(s);
    }
    if m > 2 {
      DistanceClass(e, m - 1);
      DistStep(s - 1);
      assert m == 3;
    } else if e > 0 {
      Doubles(e);
      DistanceClass(e - 1, 3);
      DistStep(s - 1);
    } else {
      Pow2Small();
      FirstClasses();
    }
  }

  lemma Doubles(e: nat)
    requires e > 0
    ensures Pow2(e) == 2 * Pow2(e - 1)
  {
  }

  lemma ShortDistances(w: nat)
    requires w < 2
    ensures DistExtra(w) == 0 && DistBase(w) == 1 + w
  {
  }

  /** The number of binary digits behind the first. */
  function Log2(v: nat): nat
    requires v > 0
  {
    if v == 1 then 0 else 1 + Log2(v / 2)
  }

  lemma {:induction false} Log2Bounds(v: nat)
    requires v > 0
    ensures Pow2(Log2(v)) <= v < 2 * Pow2(Log2(v))
  {
    if v > 1 {
      Log2Bounds(v / 2);
    }
  }

  /** The leading digits of a number and the e digits behind them. */
  lemma Leading(v: nat, k: nat)
    requires v > 0 && Log2(v) >= k
    ensures var p := Pow2(Log2(v) - k);
            Pow2(k) <= v / p < 2 * Pow2(k) && v == v / p * p + v % p && v % p < p
  {
    hide Log2, Pow2;
    var p := Pow2(Log2(v) - k);
    Log2Bounds(v);
    Pow2Add(k, Log2(v) - k);
    Quotient(v, p, Pow2(k));
  }

  lemma Quotient(v: nat, p: nat, q: nat)
    requires p > 0 && q * p <= v < 2 * (q * p)
    ensures q <= v / p < 2 * q && v == v / p * p + v % p
  {
    var d := v / p;
    assert v == d * p + v % p;
    if d < q {
      Gap(d, q, p);
    }
    if d >= 2 * q {
      Gap(2 * q - 1, d, p);
    }
  }

  lemma Gap(a: nat, b: nat, p: nat)
    requires a < b
    ensures a * p + p <= b * p
  {
    Monotone(a + 1, b, p);
    assert (a + 1) * p == a * p + p;
  }

  lemma {:induction false} Monotone(a: nat, b: nat, p: nat)
    requires a <= b
    ensures a * p <= b * p
    decreases b
  {
    if a < b {
      Monotone(a, b - 1, p);
      assert b * p == (b - 1) * p + p;
    }
  }

  lemma {:induction false} Log2Below(v: nat, n: nat)
    requires 0 < v < Pow2(n)
    ensures Log2(v) < n
  {
    if v > 1 {
      Log2Below(v / 2, n - 1);
    }
  }

  // ---------- a text in one fixed block ----------

  /** A byte, or as many bytes as `len` copied from `distance` bytes back. */
  datatype Piece = Byte(b: byte) | Back(len: nat, distance: nat)

  predicate Allowed(p: Piece) {
    p.Back? ==> 3 <= p.len <= 258 && 1 <= p.distance <= 32768
  }

  /** The bits of a literal symbol, written out. */
  function SymbolBits(s: nat): seq<bit>
    requires s < 288
  {
    if s < 144 then MsbBits(0x30 + s, 8)
    else if s < 256 then MsbBits(0x190 + s - 144, 9)
    else if s < 280 then MsbBits(s - 256, 7)
    else MsbBits(0xC0 + s - 280, 8)
  }

  /** A symbol and the number behind it, of so many digits. */
  datatype Parts = Parts(symbol: nat, extra: nat, digits: nat)

  function LengthParts(len: nat): (p: Parts)
    requires 3 <= len <= 258
    ensures 257 <= p.symbol <= 285
  {
    var v := len - 3;
    if v < 4 then Parts(257 + v, 0, 0)
    else if v == 255 then Parts(285, 0, 0)
    else
      LengthDigits(v);
      var e := Log2(v) - 2;
      Parts(257 + 4 * e + v / Pow2(e), v % Pow2(e), e)
  }

  lemma LengthDigits(v: nat)
    requires 4 <= v < 255
    ensures 2 <= Log2(v) <= 7 && 4 <= v / Pow2(Log2(v) - 2) < 8
    ensures v == v / Pow2(Log2(v) - 2) * Pow2(Log2(v) - 2) + v % Pow2(Log2(v) - 2)
  {
    hide Log2;
    Pow2Small();
    Log2Below(v, 8);
    Log2Bounds(v);
    Leading(v, 2);
  }

  function DistanceParts(distance: nat): (p: Parts)
    requires 1 <= distance <= 32768
    ensures p.symbol <= 29
  {
    var w := distance - 1;
    if w < 2 then Parts(w, 0, 0)
    else
      DistanceDigits(w);
      var e := Log2(w) - 1;
      Parts(2 * e + w / Pow2(e), w % Pow2(e), e)
  }

  lemma DistanceDigits(w: nat)
    requires 2 <= w < 32768
    ensures 1 <= Log2(w) <= 14 && 2 <= w / Pow2(Log2(w) - 1) < 4
    ensures w == w / Pow2(Log2(w) - 1) * Pow2(Log2(w) - 1) + w % Pow2(Log2(w) - 1)
  {
    hide Log2;
    Pow2Small();
    Pow2Add(7, 8);
    Log2Below(w, 15);
    Log2Bounds(w);
    Leading(w, 1);
  }

  function PieceBits(p: Piece): seq<bit>
    requires Allowed(p)
  {
    match p
    case Byte(b) => SymbolBits(b)
    case Back(len, distance) =>
      var l, d := LengthParts(len), DistanceParts(distance);
      SymbolBits(l.symbol) + (LsbBits(l.extra, l.digits) + (MsbBits(d.symbol, 5) + LsbBits(d.extra, d.digits)))
  }

  function PiecesBits(pieces: seq<Piece>): seq<bit>
    requires forall i :: 0 <= i < |pieces| ==> Allowed(pieces[i])
  {
    if pieces == [] then [] else PieceBits(pieces[0]) + PiecesBits(pieces[1..])
  }

  /** The copy token of a length and a distance, its symbols taken from their digits. */
  lemma CopyToken(len: nat, distance: nat) returns (t: Token)
    requires 3 <= len <= 258 && 1 <= distance <= 32768
    ensures var l, d := LengthParts(len), DistanceParts(distance);
            && t == Copy(l.symbol, l.extra, d.symbol, d.extra) && WellFormed(t)
            && LengthExtra(l.symbol) == l.digits && DistExtra(d.symbol) == d.digits
            && LengthOf(t) == len && DistanceOf(t) == distance
  {
    hide Log2, Pow2, LengthBase, LengthExtra, DistBase, DistExtra;
    var l, d := LengthParts(len), DistanceParts(distance);
    var v, w := len - 3, distance - 1;
    Pow2Small();
    if v < 4 {
      ShortLengths(v);
    } else if v == 255 {
      ShortLengths(0);
    } else {
      LengthDigits(v);
      LengthClass(l.digits, v / Pow2(l.digits));
    }
    if w < 2 {
      ShortDistances(w);
    } else {
      DistanceDigits(w);
      DistanceClass(d.digits, w / Pow2(d.digits));
    }
    t := Copy(l.symbol, l.extra, d.symbol, d.extra);
  }

  const END: seq<bit> := [0, 0, 0, 0, 0, 0, 0]

  lemma EndIsZero()
    ensures SymbolBits(256) == END
  {
    assert MsbBits(0, 3) == [0, 0, 0];
    assert MsbBits(0, 5) == MsbBits(0, 3) + [0, 0];
    assert MsbBits(0, 7) == MsbBits(0, 5) + [0, 0];
  }

  /** What the pieces stand for after some history, if they can be resolved. */
  function Resolved(pieces: seq<Piece>, history: seq<byte>): Option<seq<byte>> {
    if pieces == [] then Some(history)
    else
      match pieces[0]
      case Byte(b) => Resolved(pieces[1..], history + [b])
      case Back(len, distance) =>
        if 0 < distance <= |history| then Resolved(pieces[1..], CopyBack(history, distance, len)) else None
  }

  lemma PieceToken(p: Piece, history: seq<byte>) returns (t: Token)
    requires Allowed(p) && Resolved([p], history).Some?
    ensures TokenFits(FixedLiteralLengths(), Some(FixedDistanceLengths()), t)
    ensures TokenBits(FixedLiteralLengths(), Some(FixedDistanceLengths()), t) == PieceBits(p)
    ensures InHistory(t, |history|) && Resolved([p], history) == Some(Apply(t, history))
  {
    hide FixedLiteralLengths, FixedDistanceLengths, MsbBits, LsbBits, Code, Writable, LengthParts, DistanceParts,
         CopyBack, LengthBase, LengthExtra, DistBase, DistExtra, Pow2;
    FixedCodesFit();
    assert [p][1..] == [];
    match p
    case Byte(b) =>
      FixedLiteralCode(b);
      t := Literal(b);
    case Back(len, distance) =>
      t := CopyToken(len, distance);
      FixedLiteralCode(t.lsym);
      FixedDistanceCode(t.dsym);
  }

  lemma ResolvedFirst(pieces: seq<Piece>, history: seq<byte>)
    requires pieces != [] && Resolved(pieces, history).Some?
    ensures Resolved([pieces[0]], history).Some?
    ensures Resolved(pieces, history) == Resolved(pieces[1..], Resolved([pieces[0]], history).value)
  {
    assert [pieces[0]][1..] == [];
  }

  /** Every list of pieces that can be resolved is a list of tokens the fixed code writes. */
  lemma {:induction false} PiecesFit(pieces: seq<Piece>, history: seq<byte>) returns (ts: seq<Token>)
    requires forall i :: 0 <= i < |pieces| ==> Allowed(pieces[i])
    requires Resolved(pieces, history).Some?
    ensures TokensFit(FixedLiteralLengths(), Some(FixedDistanceLengths()), ts)
    ensures BlockBits(FixedLiteralLengths(), Some(FixedDistanceLengths()), ts) == PiecesBits(pieces) + END
    ensures DistancesOk(ts, |history|) && Some(Expand(ts, history)) == Resolved(pieces, history)
    decreases |pieces|
  {
    hide FixedLiteralLengths, FixedDistanceLengths, SymbolBits, Code, TokenFits, TokenBits, PieceBits, InHistory, Apply,
         Allowed, LengthParts, DistanceParts, TokenSize, CopyBack;
    if pieces == [] {
      EndCode();
      ts := [];
      assert [] + END == END;
    } else {
      ResolvedFirst(pieces, history);
      var t := PieceToken(pieces[0], history);
      var more := PiecesFit(pieces[1..], Apply(t, history));
      ts := [t] + more;
      assert ts[1..] == more;
      Assoc(PieceBits(pieces[0]), PiecesBits(pieces[1..]), END);
    }
  }

  lemma EndCode()
    ensures Code(FixedLiteralLengths(), 256) == END
  {
    hide MsbBits, Code;
    FixedLiteralCode(256);
    EndIsZero();
  }

  /** A message of one final block. */
  lemma OneBlock(block: Block, trailing: seq<bit>, history: seq<byte>)
    requires !block.Stored? && BlockFits(block) && BlockInHistory(block, |history|)
    ensures IsMessage([block], true, trailing) && BlocksInHistory([block], |history|)
    ensures MessageBits([block], true, trailing) == FlagBits(true, block) + (BodyBits(block) + trailing)
    ensures BlocksSize([block]) == BlockSize(block) && ExpandBlocks([block], history) == ExpandBlock(block, history)
  {
    hide BlockFits, BodyBits, FlagBits, BlockSize, ExpandBlock, BlockInHistory;
    assert [block][1..] == [];
    assert MessageBits([], true, trailing) == trailing;
    assert BlocksFit([]) && BlocksFit([block]);
    assert BlocksAligned([], true, trailing) && BlocksAligned([block], true, trailing);
  }

  lemma FixedFlags(tokens: seq<Token>)
    ensures FlagBits(true, Fixed(tokens)) == [1, 1, 0]
  {
    assert LsbBits(1, 1) == [1] && LsbBits(1, 2) == [1, 0];
  }

  /** A final fixed block, bit by bit: bytes and back references are inflated to the text
      they stand for, whatever trails the block. */
  lemma FixedBlockIsRead(pieces: seq<Piece>, trailing: seq<bit>, history: seq<byte>)
    requires forall i :: 0 <= i < |pieces| ==> Allowed(pieces[i])
    requires Resolved(pieces, history).Some? && |Resolved(pieces, history).value| <= |history| + 1048576
    ensures MessageData([1, 1, 0] + PiecesBits(pieces) + END + trailing, history, 0)
            == Finished(Resolved(pieces, history).value, true)
  {
    hide FixedLiteralLengths, FixedDistanceLengths, Code, Writable, BlockBits, TokensFit, MessageData, Allowed,
         MessageBits, IsMessage, FlagBits, BlocksInHistory, Expand, DistancesOk, PiecesBits, Resolved;
    var ts := PiecesFit(pieces, history);
    var block := Fixed(ts);
    FixedCodesFit();
    FixedFlags(ts);
    OneBlock(block, trailing, history);
    var body := PiecesBits(pieces);
    assert [1, 1, 0] + ((body + END) + trailing) == [1, 1, 0] + body + END + trailing;
    MessageRoundTrip([block], true, trailing, history, 0);
  }

  lemma LetterBits()
    ensures PiecesBits([Byte(97)]) == [1, 0, 0, 1, 0, 0, 0, 1]
  {
    assert MsbBits(9, 4) == MsbBits(2, 2) + [0, 1];
    assert MsbBits(0x24, 6) == MsbBits(9, 4) + [0, 0];
    assert MsbBits(0x91, 8) == MsbBits(0x24, 6) + [0, 1];
    assert PiecesBits([Byte(97)][1..]) == [];
  }

  /** What a standard compressor writes for the letter `a`. */
  lemma LetterIsInflated(history: seq<byte>)
    ensures Received([0x4b, 0x04, 0x00], history) == Finished(history + [97], true)
  {
    hide MessageData, PiecesBits;
    var data: seq<byte> := [0x4b, 0x04, 0x00] + EMPTY_TAIL;
    var bits := BitsOf(data);
    LetterBits();
    assert Resolved([Byte(97)], history) == Some(history + [97]) by {
      assert [Byte(97)][1..] == [];
    }
    assert bits[..18] == [1, 1, 0] + PiecesBits([Byte(97)]) + END;
    assert bits == bits[..18] + bits[18..];
    FixedBlockIsRead([Byte(97)], bits[18..], history);
  }
}
