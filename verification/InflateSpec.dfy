/** What a DEFLATE block means (RFC 1951 sections 3.2.3 to 3.2.5): bits are turned into
    LZ77 operations on an unbounded history. */
module InflateSpec {
  import opened Wrappers
  import opened Bits
  import opened CanonicalCode
  import opened HuffmanTables
  import opened Lz77

  const MAX_MESSAGE: nat := 1048576

  datatype InflateError = Data | TooLarge

  /** How decoding ended: the whole history so far, and the bits left after success. */
  datatype Outcome =
    | Done(history: seq<byte>, rest: seq<bit>)
    | Fail(error: InflateError, history: seq<byte>)

  const LENGTH_BASE: seq<nat> := [
    3, 4, 5, 6, 7, 8, 9, 10, 11, 13, 15, 17, 19, 23, 27, 31, 35, 43, 51, 59, 67, 83, 99, 115,
    131, 163, 195, 227, 258]
  const LENGTH_EXTRA: seq<nat> := [
    0, 0, 0, 0, 0, 0, 0, 0, 1, 1, 1, 1, 2, 2, 2, 2, 3, 3, 3, 3, 4, 4, 4, 4, 5, 5, 5, 5, 0]
  const DIST_BASE: seq<nat> := [
    1, 2, 3, 4, 5, 7, 9, 13, 17, 25, 33, 49, 65, 97, 129, 193, 257, 385, 513, 769, 1025, 1537,
    2049, 3073, 4097, 6145, 8193, 12289, 16385, 24577]
  const DIST_EXTRA: seq<nat> := [
    0, 0, 0, 0, 1, 1, 2, 2, 3, 3, 4, 4, 5, 5, 6, 6, 7, 7, 8, 8, 9, 9, 10, 10, 11, 11, 12, 12, 13, 13]

  function LengthBase(symbol: nat): nat
    requires 257 <= symbol <= 285
  {
    LENGTH_BASE[symbol - 257]
  }

  function LengthExtra(symbol: nat): nat
    requires 257 <= symbol <= 285
  {
    LENGTH_EXTRA[symbol - 257]
  }

  function DistBase(symbol: nat): (base: nat)
    requires symbol <= 29
    ensures base > 0
  {
    DIST_BASE[symbol]
  }

  function DistExtra(symbol: nat): nat
    requires symbol <= 29
  {
    DIST_EXTRA[symbol]
  }

  lemma LengthStepLow(s: nat)
    requires 257 <= s < 271
    ensures LengthBase(s + 1) == LengthBase(s) + Pow2(LengthExtra(s))
  {
    Pow2Small();
  }

  lemma LengthStepHigh(s: nat)
    requires 271 <= s < 284
    ensures LengthBase(s + 1) == LengthBase(s) + Pow2(LengthExtra(s))
  {
    Pow2Small();
  }

  /** The length classes leave no gap (the last one, 258, stands by itself). */
  lemma LengthStep(s: nat)
    requires 257 <= s < 284
    ensures LengthBase(s + 1) == LengthBase(s) + Pow2(LengthExtra(s))
  {
    hide LengthBase, LengthExtra, Pow2;
    if s < 271 {
      LengthStepLow(s);
    } else {
      LengthStepHigh(s);
    }
  }

  lemma DistStepLow(s: nat)
    requires s < 10
    ensures DistBase(s + 1) == DistBase(s) + Pow2(DistExtra(s))
  {
    Pow2Small();
  }

  lemma DistStepMiddle(s: nat)
    requires 10 <= s < 20
    ensures DistBase(s + 1) == DistBase(s) + Pow2(DistExtra(s))
  {
    Pow2Small();
  }

  lemma DistStepHigh(s: nat)
    requires 20 <= s < 29
    ensures DistBase(s + 1) == DistBase(s) + Pow2(DistExtra(s))
  {
    Pow2Small();
  }

  /** The distance classes leave no gap. */
  lemma DistStep(s: nat)
    requires s < 29
    ensures DistBase(s + 1) == DistBase(s) + Pow2(DistExtra(s))
  {
    hide DistBase, DistExtra, Pow2;
    if s < 10 {
      DistStepLow(s);
    } else if s < 20 {
      DistStepMiddle(s);
    } else {
      DistStepHigh(s);
    }
  }

  lemma TableEnds()
    ensures LengthBase(257) == 3 && LengthBase(285) == 258 && LengthExtra(285) == 0
    ensures LengthBase(284) + Pow2(LengthExtra(284)) == 259
    ensures DistBase(0) == 1 && DistBase(29) + Pow2(DistExtra(29)) == WINDOW_SIZE + 1
  {
    Pow2Small();
  }

  ghost predicate Usable(lit: seq<nat>, dist: Option<seq<nat>>) {
    AllShort(lit) && (dist.Some? ==> AllShort(dist.value))
  }

  /** The length and distance of a back reference, and the bits after it. */
  datatype Reference = Reference(len: nat, distance: nat, rest: seq<bit>)

  ghost function ReadReference(symbol: nat, dist: Option<seq<nat>>, bits: seq<bit>): (r: Option<Reference>)
    requires 257 <= symbol <= 285
    ensures r.Some? ==> |r.value.rest| < |bits| && r.value.distance > 0
  {
    match ReadNumber(bits, LengthExtra(symbol))
    case None => None
    case Some(Number(lextra, afterLength)) =>
      if dist.None? then None
      else
        match ReadSymbol(dist.value, afterLength)
        case None => None
        case Some(Symbol(dsym, afterCode)) =>
          if dsym > 29 then None
          else
            match ReadNumber(afterCode, DistExtra(dsym))
            case None => None
            case Some(Number(dextra, rest)) =>
              Some(Reference(LengthBase(symbol) + lextra, DistBase(dsym) + dextra, rest))
  }

  /** One block of compressed data: `made` bytes of this message precede it. */
  ghost function BlockData(lit: seq<nat>, dist: Option<seq<nat>>, bits: seq<bit>, history: seq<byte>, made: nat)
      : (r: Outcome)
    ensures history <= r.history
    ensures r.Done? ==> |r.rest| < |bits|
    decreases |bits|
  {
    match ReadSymbol(lit, bits)
    case None => Fail(Data, history)
    case Some(Symbol(symbol, rest)) =>
      if symbol <= 255 then
        if made >= MAX_MESSAGE then Fail(TooLarge, history)
        else BlockData(lit, dist, rest, history + [symbol], made + 1)
      else if symbol == 256 then Done(history, rest)
      else if symbol > 285 then Fail(Data, history)
      else
        match ReadReference(symbol, dist, rest)
        case None => Fail(Data, history)
        case Some(Reference(len, distance, rest')) =>
          if distance > |history| then Fail(Data, history)
          else if made + len > MAX_MESSAGE then Fail(TooLarge, history)
          else
            CopyBackExtends(history, distance, len);
            BlockData(lit, dist, rest', CopyBack(history, distance, len), made + len)
  }

  lemma CopyBackExtends(history: seq<byte>, distance: nat, len: nat)
    requires 0 < distance <= |history|
    ensures history <= CopyBack(history, distance, len)
  {
    CopyBackIsPeriodic(history, distance, len, CopyBack(history, distance, len));
  }

  // ---------- the encoder of RFC 1951 section 3.2.5 ----------

  /** A literal byte, or a back reference given by its two symbols and their extra bits. */
  datatype Token =
    | Literal(b: byte)
    | Copy(lsym: nat, lextra: nat, dsym: nat, dextra: nat)

  predicate WellFormed(t: Token) {
    t.Copy? ==> && 257 <= t.lsym <= 285 && t.lextra < Pow2(LengthExtra(t.lsym))
                && t.dsym <= 29 && t.dextra < Pow2(DistExtra(t.dsym))
  }

  /** The token's codes exist in the two code books. */
  ghost predicate TokenFits(lit: seq<nat>, dist: Option<seq<nat>>, t: Token) {
    && WellFormed(t)
    && match t
       case Literal(b) => Writable(lit, b)
       case Copy(lsym, lextra, dsym, dextra) =>
         Writable(lit, lsym) && dist.Some? && Writable(dist.value, dsym)
  }

  function LengthOf(t: Token): nat
    requires t.Copy? && WellFormed(t)
  {
    LengthBase(t.lsym) + t.lextra
  }

  function DistanceOf(t: Token): (d: nat)
    requires t.Copy? && WellFormed(t)
    ensures d > 0
  {
    DistBase(t.dsym) + t.dextra
  }

  ghost function TokenBits(lit: seq<nat>, dist: Option<seq<nat>>, t: Token): (bits: seq<bit>)
    requires TokenFits(lit, dist, t)
  {
    match t
    case Literal(b) => Code(lit, b)
    case Copy(lsym, lextra, dsym, dextra) =>
      Code(lit, lsym) + (LsbBits(lextra, LengthExtra(lsym))
                         + (Code(dist.value, dsym) + LsbBits(dextra, DistExtra(dsym))))
  }

  ghost predicate TokensFit(lit: seq<nat>, dist: Option<seq<nat>>, ts: seq<Token>) {
    ts != [] ==> TokenFits(lit, dist, ts[0]) && TokensFit(lit, dist, ts[1..])
  }

  /** The bits of the tokens followed by end-of-block. */
  ghost function BlockBits(lit: seq<nat>, dist: Option<seq<nat>>, ts: seq<Token>): (bits: seq<bit>)
    requires TokensFit(lit, dist, ts)
  {
    if ts == [] then Code(lit, 256) else TokenBits(lit, dist, ts[0]) + BlockBits(lit, dist, ts[1..])
  }

  /** How many bytes the tokens stand for. */
  function TokenSize(t: Token): nat {
    if t.Copy? && WellFormed(t) then LengthOf(t) else 1
  }

  function TokensSize(ts: seq<Token>): nat {
    if ts == [] then 0 else TokenSize(ts[0]) + TokensSize(ts[1..])
  }

  predicate InHistory(t: Token, n: nat) {
    t.Copy? ==> WellFormed(t) && DistanceOf(t) <= n
  }

  /** Every back reference stays inside what precedes it. */
  predicate DistancesOk(ts: seq<Token>, n: nat) {
    ts != [] ==> InHistory(ts[0], n) && DistancesOk(ts[1..], n + TokenSize(ts[0]))
  }

  function Apply(t: Token, history: seq<byte>): (r: seq<byte>)
    requires InHistory(t, |history|)
    ensures |r| == |history| + TokenSize(t)
  {
    if t.Literal? then history + [t.b] else CopyBack(history, DistanceOf(t), LengthOf(t))
  }

  /** The LZ77 expansion of the tokens. */
  function Expand(ts: seq<Token>, history: seq<byte>): (r: seq<byte>)
    requires DistancesOk(ts, |history|)
    ensures |r| == |history| + TokensSize(ts)
  {
    if ts == [] then history else Expand(ts[1..], Apply(ts[0], history))
  }

  // ---------- decoding undoes encoding, and everything decoded was encoded ----------

  /** The encoding of a copy token is read back as its length and distance. */
  lemma ReferenceReadsBack(dist: seq<nat>, t: Token, rest: seq<bit>)
    requires AllShort(dist) && t.Copy? && WellFormed(t) && Writable(dist, t.dsym)
    ensures var bits := LsbBits(t.lextra, LengthExtra(t.lsym))
                        + ((Code(dist, t.dsym) + LsbBits(t.dextra, DistExtra(t.dsym))) + rest);
            ReadReference(t.lsym, Some(dist), bits) == Some(Reference(LengthOf(t), DistanceOf(t), rest))
  {
    hide Code, ReadSymbol, ReadNumber, LsbBits, Writable, AllShort, Pow2, LengthExtra, LengthBase, DistExtra, DistBase;
    var lbits, dcode, dbits :=
      LsbBits(t.lextra, LengthExtra(t.lsym)), Code(dist, t.dsym), LsbBits(t.dextra, DistExtra(t.dsym));
    Assoc(dcode, dbits, rest);
    NumberRoundTrip(lbits + ((dcode + dbits) + rest), LengthExtra(t.lsym), t.lextra, (dcode + dbits) + rest);
    SymbolRoundTrip(dist, dcode + (dbits + rest), t.dsym, dbits + rest);
    NumberRoundTrip(dbits + rest, DistExtra(t.dsym), t.dextra, rest);
  }

  lemma {:induction false} LengthBounds(s: nat)
    requires 257 <= s <= 285
    ensures 3 <= LengthBase(s) && LengthBase(s) + Pow2(LengthExtra(s)) <= 259
    decreases 285 - s
  {
    hide LengthBase, LengthExtra, Pow2;
    TableEnds();
    assert Pow2(0) == 1 by {
      Pow2Small();
    }
    if s < 284 {
      LengthStep(s);
      LengthBounds(s + 1);
      LengthFloor(s);
    } else if s == 284 {
      LengthFloor(s);
    }
  }

  lemma {:induction false} LengthFloor(s: nat)
    requires 257 <= s <= 284
    ensures 3 <= LengthBase(s)
    decreases s
  {
    hide LengthBase, LengthExtra, Pow2;
    TableEnds();
    if s > 257 {
      LengthFloor(s - 1);
      LengthStep(s - 1);
    }
  }

  lemma {:induction false} DistBounds(s: nat)
    requires s <= 29
    ensures 1 <= DistBase(s) && DistBase(s) + Pow2(DistExtra(s)) <= WINDOW_SIZE + 1
    decreases 29 - s
  {
    hide DistBase, DistExtra, Pow2;
    TableEnds();
    if s < 29 {
      DistStep(s);
      DistBounds(s + 1);
    }
  }

  /** No copy token reaches further back than the window. */
  lemma ReferenceBounds(t: Token)
    requires t.Copy? && WellFormed(t)
    ensures 3 <= LengthOf(t) <= 258 && 1 <= DistanceOf(t) <= 32768
  {
    hide LengthBase, LengthExtra, DistBase, DistExtra;
    LengthBounds(t.lsym);
    DistBounds(t.dsym);
  }

  lemma LengthHasASymbol(len: nat) returns (l: nat)
    requires 3 <= len <= 258
    ensures 257 <= l <= 285 && LengthBase(l) <= len < LengthBase(l) + Pow2(LengthExtra(l))
  {
    hide LengthBase, LengthExtra, Pow2;
    TableEnds();
    assert Pow2(0) == 1 by {
      Pow2Small();
    }
    l := 285;
    while LengthBase(l) > len
      invariant 257 <= l <= 285 && (l < 285 ==> len < LengthBase(l + 1))
      decreases l
    {
      l := l - 1;
    }
    if l < 284 {
      LengthStep(l);
    }
  }

  lemma DistanceHasASymbol(distance: nat) returns (d: nat)
    requires 1 <= distance <= 32768
    ensures d <= 29 && DistBase(d) <= distance < DistBase(d) + Pow2(DistExtra(d))
  {
    hide DistBase, DistExtra, Pow2;
    TableEnds();
    d := 29;
    while DistBase(d) > distance
      invariant d <= 29 && (d < 29 ==> distance < DistBase(d + 1))
      decreases d
    {
      d := d - 1;
    }
    if d < 29 {
      DistStep(d);
    }
  }

  /** Every length and distance RFC 1951 allows has a copy token. */
  lemma EveryReferenceHasAToken(len: nat, distance: nat) returns (t: Token)
    requires 3 <= len <= 258 && 1 <= distance <= 32768
    ensures t.Copy? && WellFormed(t) && LengthOf(t) == len && DistanceOf(t) == distance
  {
    hide LengthBase, LengthExtra, DistBase, DistExtra, Pow2;
    var l := LengthHasASymbol(len);
    var d := DistanceHasASymbol(distance);
    t := Copy(l, len - LengthBase(l), d, distance - DistBase(d));
  }

  /** Decoding one encoded token is applying it. */
  lemma TokenReadsBack(lit: seq<nat>, dist: Option<seq<nat>>, t: Token, rest: seq<bit>, history: seq<byte>, made: nat)
    requires Usable(lit, dist) && TokenFits(lit, dist, t)
    ensures BlockData(lit, dist, TokenBits(lit, dist, t) + rest, history, made) ==
            if !InHistory(t, |history|) then Fail(Data, history)
            else if made + TokenSize(t) > MAX_MESSAGE then Fail(TooLarge, history)
            else BlockData(lit, dist, rest, Apply(t, history), made + TokenSize(t))
  {
    hide Code, ReadSymbol, LsbBits, Writable, AllShort, Pow2, LengthExtra, LengthBase, DistExtra, DistBase,
         ReadReference;
    if t.Literal? {
      SymbolRoundTrip(lit, Code(lit, t.b) + rest, t.b, rest);
    } else {
      var tail := LsbBits(t.lextra, LengthExtra(t.lsym))
                  + (Code(dist.value, t.dsym) + LsbBits(t.dextra, DistExtra(t.dsym)));
      Assoc(Code(lit, t.lsym), tail, rest);
      SymbolRoundTrip(lit, Code(lit, t.lsym) + (tail + rest), t.lsym, tail + rest);
      Assoc(LsbBits(t.lextra, LengthExtra(t.lsym)),
            Code(dist.value, t.dsym) + LsbBits(t.dextra, DistExtra(t.dsym)), rest);
      ReferenceReadsBack(dist.value, t, rest);
    }
  }

  /** The decoder inverts the encoder: the bits of a token list yield its LZ77 expansion
      and exactly those bits are consumed; with distances in range it fails only when the
      output passes 1 MiB. */
  lemma {:induction false} BlockRoundTrip(lit: seq<nat>, dist: Option<seq<nat>>, ts: seq<Token>, rest: seq<bit>,
                                          history: seq<byte>, made: nat)
    requires Usable(lit, dist) && TokensFit(lit, dist, ts) && Writable(lit, 256)
    requires DistancesOk(ts, |history|) && made <= MAX_MESSAGE
    ensures var r := BlockData(lit, dist, BlockBits(lit, dist, ts) + rest, history, made);
            if made + TokensSize(ts) <= MAX_MESSAGE then r == Done(Expand(ts, history), rest)
            else r.Fail? && r.error == TooLarge
    decreases |ts|
  {
    hide Code, ReadSymbol, Writable, AllShort, WellFormed, TokenFits, TokenBits, LengthOf, DistanceOf, ReadReference,
         Apply;
    if ts == [] {
      SymbolRoundTrip(lit, Code(lit, 256) + rest, 256, rest);
    } else {
      var head, tail := TokenBits(lit, dist, ts[0]), BlockBits(lit, dist, ts[1..]);
      Assoc(head, tail, rest);
      TokenReadsBack(lit, dist, ts[0], tail + rest, history, made);
      if made + TokenSize(ts[0]) <= MAX_MESSAGE {
        BlockRoundTrip(lit, dist, ts[1..], rest, Apply(ts[0], history), made + TokenSize(ts[0]));
      }
    }
  }

  /** The tokens a successful decoding stands for. */
  ghost predicate Explains(lit: seq<nat>, dist: Option<seq<nat>>, ts: seq<Token>, bits: seq<bit>,
                           history: seq<byte>, made: nat, r: Outcome)
  {
    && r.Done? && Writable(lit, 256)
    && TokensFit(lit, dist, ts)
    && DistancesOk(ts, |history|) && made + TokensSize(ts) <= MAX_MESSAGE
    && bits == BlockBits(lit, dist, ts) + r.rest
    && r.history == Expand(ts, history)
  }

  /** A back reference that is read was written as a copy token. */
  lemma ReferenceIsEncoded(lit: seq<nat>, dist: Option<seq<nat>>, symbol: nat, bits: seq<bit>, after: seq<bit>)
      returns (t: Token)
    requires Usable(lit, dist) && 257 <= symbol <= 285
    requires ReadSymbol(lit, bits) == Some(Symbol(symbol, after))
    requires ReadReference(symbol, dist, after).Some?
    ensures var ref := ReadReference(symbol, dist, after).value;
            && t.Copy? && TokenFits(lit, dist, t)
            && LengthOf(t) == ref.len && DistanceOf(t) == ref.distance
            && bits == TokenBits(lit, dist, t) + ref.rest
  {
    hide Code, ReadSymbol, ReadNumber, LsbBits, Writable, AllShort, Pow2, LengthExtra, LengthBase, DistExtra, DistBase;
    SymbolRoundTrip(lit, bits, symbol, after);
    var ln := ReadNumber(after, LengthExtra(symbol)).value;
    NumberRoundTrip(after, LengthExtra(symbol), ln.value, ln.rest);
    var ds := ReadSymbol(dist.value, ln.rest).value;
    SymbolRoundTrip(dist.value, ln.rest, ds.symbol, ds.rest);
    var dn := ReadNumber(ds.rest, DistExtra(ds.symbol)).value;
    NumberRoundTrip(ds.rest, DistExtra(ds.symbol), dn.value, dn.rest);
    t := Copy(symbol, ln.value, ds.symbol, dn.value);
    var lbits, dcode, dbits :=
      LsbBits(t.lextra, LengthExtra(t.lsym)), Code(dist.value, t.dsym), LsbBits(t.dextra, DistExtra(t.dsym));
    Assoc(dcode, dbits, dn.rest);
    Assoc(lbits, dcode + dbits, dn.rest);
    Assoc(Code(lit, symbol), lbits + (dcode + dbits), dn.rest);
  }

  /** Prepending a token to an explanation of what follows it. */
  lemma ExplainsCons(lit: seq<nat>, dist: Option<seq<nat>>, t: Token, ts: seq<Token>, bits: seq<bit>, rest: seq<bit>,
                     history: seq<byte>, made: nat, r: Outcome)
    requires TokenFits(lit, dist, t) && InHistory(t, |history|)
    requires bits == TokenBits(lit, dist, t) + rest
    requires Explains(lit, dist, ts, rest, Apply(t, history), made + TokenSize(t), r)
    ensures Explains(lit, dist, [t] + ts, bits, history, made, r)
  {
    hide TokenFits, TokenBits, InHistory, TokenSize, Writable, Apply;
    assert ([t] + ts)[1..] == ts;
    Assoc(TokenBits(lit, dist, t), BlockBits(lit, dist, ts), r.rest);
  }

  /** Whatever the decoder accepts is the RFC encoding of some token list whose expansion
      it returned. */
  lemma {:induction false} BlockIsEncoded(lit: seq<nat>, dist: Option<seq<nat>>, bits: seq<bit>, history: seq<byte>,
                                          made: nat)
      returns (ts: seq<Token>)
    requires Usable(lit, dist) && made <= MAX_MESSAGE
    requires BlockData(lit, dist, bits, history, made).Done?
    ensures Explains(lit, dist, ts, bits, history, made, BlockData(lit, dist, bits, history, made))
    decreases |bits|
  {
    hide Code, ReadSymbol, LsbBits, Writable, AllShort, ReadReference, LengthExtra, LengthBase, DistExtra, DistBase,
         Pow2;
    var r := BlockData(lit, dist, bits, history, made);
    var Symbol(symbol, rest) := ReadSymbol(lit, bits).value;
    SymbolRoundTrip(lit, bits, symbol, rest);
    if symbol == 256 {
      ts := [];
    } else if symbol <= 255 {
      var t := Literal(symbol);
      ts := BlockIsEncoded(lit, dist, rest, history + [symbol], made + 1);
      ExplainsCons(lit, dist, t, ts, bits, rest, history, made, r);
      ts := [t] + ts;
    } else {
      var t := ReferenceIsEncoded(lit, dist, symbol, bits, rest);
      var ref := ReadReference(symbol, dist, rest).value;
      ts := BlockIsEncoded(lit, dist, ref.rest, CopyBack(history, ref.distance, ref.len), made + ref.len);
      ExplainsCons(lit, dist, t, ts, bits, ref.rest, history, made, r);
      ts := [t] + ts;
    }
  }
}
