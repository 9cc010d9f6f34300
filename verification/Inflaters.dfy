/** The inflater itself (src/fmtool/src/deflate.rs): its window is kept across messages. */
module Inflaters {
  import opened Wrappers
  import opened Bits
  import opened CanonicalCode
  import opened HuffmanTables
  import opened BitReaders
  import opened Lz77
  import opened InflateSpec
  import opened DynamicTables
  import opened MessageSpec

  const EMPTY_TAIL: seq<byte> := [0x00, 0x00, 0xff, 0xff]

  method FixedLiteralTable() returns (table: Huffman)
    ensures TableFor(table, FixedLiteralLengths())
  {
    hide *;
    FixedCodesFit();
    var t := NewHuffman(FixedLiteralLengths());
    return t.value;
  }

  method FixedDistanceTable() returns (table: Option<Huffman>)
    ensures table.Some? && TableFor(table.value, FixedDistanceLengths())
  {
    hide *;
    FixedCodesFit();
    table := NewHuffman(FixedDistanceLengths());
  }

  // ---------- the dynamic header ----------

  method ReadCodeLengths(br: BitReader, hclen: nat) returns (r: Option<seq<nat>>, ghost vals: seq<nat>)
    requires br.Valid() && hclen <= 19
    modifies br
    ensures br.Valid()
    ensures match ReadTriples(old(br.Rest()), hclen, [])
            case None => r == None
            case Some(Lengths(vs, rest)) =>
              vs == vals && |vals| <= 19 && Triples(vals) && r == Some(Placed(vals)) && br.Rest() == rest
  {
    hide Triples, Placed, OrderAt, Pow2, BitReader.Valid, BitReader.Rest, ReadNumber, ReadTriples;
    vals := [];
    var codeLengths: array<nat> := new nat[19](_ => 0);
    ghost var bits := br.Rest();
    NothingPlaced();
    assert codeLengths[..] == seq(19, _ => 0);
    for i := 0 to hclen
      invariant br.Valid() && |vals| == i && Triples(vals)
      invariant codeLengths[..] == Placed(vals)
      invariant ReadTriples(bits, hclen, []) == ReadTriples(br.Rest(), hclen, vals)
    {
      ghost var before := br.Rest();
      TripleStep(before, hclen, vals);
      var v := br.Bits(3);
      if v.None? {
        return None, vals;
      }
      TripleIsSmall(before, v.value, br.Rest(), vals);
      PlacedSnoc(vals, v.value);
      codeLengths[OrderAt(i)] := v.value;
      vals := vals + [v.value];
    }
    TripleStep(br.Rest(), hclen, vals);
    return Some(codeLengths[..]), vals;
  }

  lemma NothingPlaced()
    ensures Placed([]) == seq(19, _ => 0) && Triples([])
  {
  }

  lemma PlacedSnoc(vals: seq<nat>, v: nat)
    requires |vals| < 19
    ensures Placed(vals + [v]) == Placed(vals)[OrderAt(|vals|) := v]
  {
    assert (vals + [v])[..|vals|] == vals;
  }

  lemma TripleStep(bits: seq<bit>, n: nat, vals: seq<nat>)
    requires |vals| <= n
    ensures ReadTriples(bits, n, vals)
            == if |vals| == n then Some(Lengths(vals, bits))
               else if ReadNumber(bits, 3).None? then None
               else ReadTriples(ReadNumber(bits, 3).value.rest, n, vals + [ReadNumber(bits, 3).value.value])
  {
    hide ReadNumber;
  }

  lemma TripleIsSmall(bits: seq<bit>, v: nat, rest: seq<bit>, vals: seq<nat>)
    requires ReadNumber(bits, 3) == Some(Number(v, rest)) && Triples(vals)
    ensures Triples(vals + [v])
  {
  }

  /** Reads one code of the length alphabet and appends what it stands for. */
  method ReadOneRun(br: BitReader, header: Huffman, ghost headerLengths: seq<nat>, lengths: seq<nat>)
      returns (r: Option<seq<nat>>)
    requires br.Valid() && TableFor(header, headerLengths)
    modifies br
    ensures br.Valid()
    ensures match ReadRun(headerLengths, old(br.Rest()), lengths)
            case None => r == None
            case Some(RunRead(run, rest)) => r == Some(ApplyRun(run, lengths)) && br.Rest() == rest
  {
    hide BitReader.Valid, BitReader.Rest, ReadSymbol, TableFor, LsbVal, Pow2;
    var symbol := br.Decode(header, headerLengths);
    if symbol.None? {
      return None;
    }
    match symbol.value {
      case 16 =>
        var extra := br.Bits(2);
        if extra.None? || lengths == [] {
          return None;
        }
        return Some(lengths + Copies(lengths[|lengths| - 1], 3 + extra.value));
      case 17 =>
        var extra := br.Bits(3);
        if extra.None? {
          return None;
        }
        return Some(lengths + Copies(0, 3 + extra.value));
      case 18 =>
        var extra := br.Bits(7);
        if extra.None? {
          return None;
        }
        return Some(lengths + Copies(0, 11 + extra.value));
      case _ =>
        if symbol.value > 15 {
          return None;
        }
        return Some(lengths + [symbol.value]);
    }
  }

  method ReadLengthRuns(br: BitReader, header: Huffman, ghost headerLengths: seq<nat>, count: nat)
      returns (r: Option<seq<nat>>)
    requires br.Valid() && TableFor(header, headerLengths)
    modifies br
    ensures br.Valid()
    ensures match ReadRuns(headerLengths, old(br.Rest()), [], count)
            case None => r == None
            case Some(Lengths(lengths, rest)) => r == Some(lengths) && br.Rest() == rest
  {
    var lengths: seq<nat> := [];
    ghost var bits := br.Rest();
    while |lengths| < count
      invariant br.Valid()
      invariant ReadRuns(headerLengths, bits, [], count) == ReadRuns(headerLengths, br.Rest(), lengths, count)
      decreases |br.Rest()|
    {
      hide BitReader.Valid, BitReader.Rest, ReadRun, TableFor, ApplyRun;
      var more := ReadOneRun(br, header, headerLengths, lengths);
      if more.None? {
        return None;
      }
      lengths := more.value;
    }
    return if |lengths| == count then Some(lengths) else None;
  }

  /** Reads the header of a dynamic block and builds both tables. */
  method ReadDynamicTables(br: BitReader)
      returns (r: Option<(Huffman, Option<Huffman>)>, ghost lit: seq<nat>, ghost dist: Option<seq<nat>>)
    requires br.Valid()
    modifies br
    ensures br.Valid()
    ensures match ReadHeader(old(br.Rest()))
            case None => r == None
            case Some(Tables(l, d, rest)) =>
              && l == lit && d == dist && br.Rest() == rest
              && r.Some? && TableFor(r.value.0, lit)
              && (r.value.1.Some? <==> dist.Some?)
              && (dist.Some? ==> TableFor(r.value.1.value, dist.value))
  {
    hide BitReader.Valid, BitReader.Rest, ReadNumber, ReadTriples, ReadRuns, TableFor, AllShort, Triples, Placed;
    lit, dist := [], None;
    ghost var bits := br.Rest();
    var hlit := br.Bits(5);
    if hlit.None? {
      return None, lit, dist;
    }
    var hdist := br.Bits(5);
    if hdist.None? {
      return None, lit, dist;
    }
    var hclen := br.Bits(4);
    if hclen.None? || hlit.value + 257 > 286 || hdist.value + 1 > 30 {
      return None, lit, dist;
    }
    Pow2Values();
    var codeLengths, vals := ReadCodeLengths(br, hclen.value + 4);
    if codeLengths.None? {
      return None, lit, dist;
    }
    PlacedShort(vals);
    var header := NewHuffman(codeLengths.value);
    var count := hlit.value + 257 + (hdist.value + 1);
    var lengths := ReadLengthRuns(br, header.value, codeLengths.value, count);
    if lengths.None? {
      return None, lit, dist;
    }
    TablesShort(bits);
    var n := hlit.value + 257;
    lit := lengths.value[..n];
    var litTable := NewHuffman(lengths.value[..n]);
    if exists i :: n <= i < |lengths.value| && lengths.value[i] != 0 {
      dist := Some(lengths.value[n..]);
      var distTable := NewHuffman(lengths.value[n..]);
      return Some((litTable.value, distTable)), lit, dist;
    } else {
      return Some((litTable.value, None)), lit, dist;
    }
  }

  lemma TablesShort(bits: seq<bit>)
    requires ReadHeader(bits).Some?
    ensures AllShort(ReadHeader(bits).value.lit)
    ensures ReadHeader(bits).value.dist.Some? ==> AllShort(ReadHeader(bits).value.dist.value)
  {
    hide *;
    var h := HeaderIsEncoded(bits);
    HeaderTablesShort(h, ReadHeader(bits).value.rest);
  }

  /** What a received message means after the given history. */
  ghost function Received(compressed: seq<byte>, history: seq<byte>): MessageOutcome {
    if |compressed| > MAX_MESSAGE then Failed(TooLarge, history)
    else MessageData(BitsOf(compressed + EMPTY_TAIL), history, 0)
  }

  class Inflater {
    var window: seq<byte>
    var finalEnded: bool
    /** Everything output since the window was last cleared. */
    ghost var history: seq<byte>

    ghost predicate Valid()
      reads this
    {
      window == Window(history)
    }

    constructor ()
      ensures Valid() && history == [] && !finalEnded
    {
      window, finalEnded, history := [], false, [];
    }

    method PushByte(out: seq<byte>, b: byte) returns (ok: bool, out': seq<byte>)
      requires Valid()
      modifies this
      ensures Valid() && finalEnded == old(finalEnded)
      ensures ok <==> |out| < MAX_MESSAGE
      ensures ok ==> out' == out + [b] && history == old(history) + [b]
      ensures !ok ==> out' == out && history == old(history)
    {
      if |out| >= MAX_MESSAGE {
        return false, out;
      }
      WindowPush(history, b);
      out' := out + [b];
      window := window + [b];
      if |window| > WINDOW_SIZE {
        window := window[|window| - WINDOW_SIZE..];
      }
      history := history + [b];
      ok := true;
    }

    /** Copies `len` bytes from `distance` back, one by one, through the window. */
    method CopyFromWindow(out: seq<byte>, distance: nat, len: nat) returns (out': seq<byte>)
      requires Valid() && 0 < distance <= WINDOW_SIZE && distance <= |history|
      requires |out| + len <= MAX_MESSAGE
      modifies this
      ensures Valid() && finalEnded == old(finalEnded)
      ensures history == CopyBack(old(history), distance, len)
      ensures |history| >= |old(history)| && out' == out + history[|old(history)|..]
    {
      hide Window;
      out' := out;
      ghost var before := history;
      for i := 0 to len
        invariant Valid() && finalEnded == old(finalEnded)
        invariant history == CopyBack(before, distance, i)
        invariant out' == out + history[|before|..]
      {
        WindowByte(history, distance);
        CopyBackSnoc(before, distance, i);
        var b := window[|window| - distance];
        var ok;
        ok, out' := PushByte(out', b);
      }
    }

    /** Reads the rest of a back reference and copies it. */
    method CopyReference(br: BitReader, symbol: nat, distTable: Option<Huffman>, out: seq<byte>,
                         ghost dist: Option<seq<nat>>)
        returns (r: Result<(), InflateError>, out': seq<byte>)
      requires Valid() && br.Valid() && 257 <= symbol <= 285
      requires distTable.Some? <==> dist.Some?
      requires dist.Some? ==> TableFor(distTable.value, dist.value)
      modifies this, br
      ensures Valid() && br.Valid() && finalEnded == old(finalEnded)
      ensures match ReadReference(symbol, dist, old(br.Rest()))
              case None => r == Err(Data) && history == old(history)
              case Some(Reference(len, distance, rest)) =>
                if distance > |old(history)| then r == Err(Data) && history == old(history)
                else if |out| + len > MAX_MESSAGE then r == Err(TooLarge) && history == old(history)
                else
                  && r == Ok(()) && br.Rest() == rest && history == CopyBack(old(history), distance, len)
                  && out' == out + history[|old(history)|..]
    {
      hide Window, BitReader.Valid, BitReader.Rest, ReadReference, TableFor, CopyBack;
      var reference := DecodeReference(br, symbol, distTable, dist);
      if reference.None? {
        return Err(Data), out;
      }
      var (len, distance) := reference.value;
      WindowByte(history, distance);
      if distance == 0 || distance > |window| {
        return Err(Data), out;
      }
      if |out| + len > MAX_MESSAGE {
        return Err(TooLarge), out;
      }
      out' := CopyFromWindow(out, distance, len);
      r := Ok(());
    }

    /** One turn of the block loop: decodes a symbol and acts on it.  `None` means go on. */
    method InflateSymbol(br: BitReader, litTable: Huffman, distTable: Option<Huffman>, out: seq<byte>,
                         ghost lit: seq<nat>, ghost dist: Option<seq<nat>>)
        returns (r: Option<Result<(), InflateError>>, out': seq<byte>)
      requires Valid() && br.Valid()
      requires TableFor(litTable, lit) && (distTable.Some? <==> dist.Some?)
      requires dist.Some? ==> TableFor(distTable.value, dist.value)
      modifies this, br
      ensures Valid() && br.Valid() && finalEnded == old(finalEnded)
      ensures r.None? ==>
                && BlockData(lit, dist, old(br.Rest()), old(history), |out|)
                   == BlockData(lit, dist, br.Rest(), history, |out'|)
                && |br.Rest()| < |old(br.Rest())|
                && old(history) <= history && out' == out + history[|old(history)|..]
      ensures r.Some? ==> out' == out && history == old(history)
                          && BlockData(lit, dist, old(br.Rest()), old(history), |out|)
                             == if r.value.Ok? then Done(history, br.Rest()) else Fail(r.value.error, history)
    {
      hide Window, BitReader.Valid, BitReader.Rest, ReadNumber, ReadSymbol, TableFor, ReadReference, Valid, CopyBack;
      out' := out;
      var symbol := br.Decode(litTable, lit);
      if symbol.None? {
        return Some(Err(Data)), out;
      }
      if symbol.value <= 255 {
        var ok;
        ok, out' := PushByte(out, symbol.value);
        if !ok {
          return Some(Err(TooLarge)), out;
        }
        return None, out';
      } else if symbol.value == 256 {
        return Some(Ok(())), out;
      } else if symbol.value > 285 {
        return Some(Err(Data)), out;
      }
      var copied;
      copied, out' := CopyReference(br, symbol.value, distTable, out, dist);
      if copied.Err? {
        return Some(copied), out;
      }
      ghost var ref := ReadReference(symbol.value, dist, ReadSymbol(lit, old(br.Rest())).value.rest).value;
      CopyBackExtends(old(history), ref.distance, ref.len);
      return None, out';
    }

    /** Decodes one compressed block with the given tables. */
    method InflateBlock(br: BitReader, litTable: Huffman, distTable: Option<Huffman>, out: seq<byte>,
                        ghost lit: seq<nat>, ghost dist: Option<seq<nat>>)
        returns (r: Result<(), InflateError>, out': seq<byte>)
      requires Valid() && br.Valid()
      requires TableFor(litTable, lit) && (distTable.Some? <==> dist.Some?)
      requires dist.Some? ==> TableFor(distTable.value, dist.value)
      modifies this, br
      ensures Valid() && br.Valid() && finalEnded == old(finalEnded)
      ensures BlockData(lit, dist, old(br.Rest()), old(history), |out|)
              == if r.Ok? then Done(history, br.Rest()) else Fail(r.error, history)
      ensures old(history) <= history && out' == out + history[|old(history)|..]
    {
      hide *;
      out' := out;
      ghost var goal := BlockData(lit, dist, br.Rest(), history, |out|);
      while true
        invariant Valid() && br.Valid() && finalEnded == old(finalEnded)
        invariant old(history) <= history && out' == out + history[|old(history)|..]
        invariant goal == BlockData(lit, dist, br.Rest(), history, |out'|)
        decreases |br.Rest()|
      {
        ghost var before, soFar := history, out';
        var step;
        step, out' := InflateSymbol(br, litTable, distTable, out', lit, dist);
        if step.Some? {
          return step.value, out';
        }
        AppendSuffix(old(history), before, history, out, soFar, out');
      }
    }

    /** Copies `len` whole bytes of a stored block to the output. */
    method CopyStored(br: BitReader, len: nat, out: seq<byte>) returns (r: Result<(), InflateError>, out': seq<byte>)
      requires Valid() && br.Valid()
      modifies this, br
      ensures Valid() && br.Valid() && finalEnded == old(finalEnded)
      ensures StoredBytes(old(br.Rest()), len, old(history), |out|)
              == if r.Ok? then Done(history, br.Rest()) else Fail(r.error, history)
      ensures old(history) <= history && out' == out + history[|old(history)|..]
    {
      hide Window, BitReader.Valid, BitReader.Rest, ReadNumber, Aligned, Valid;
      out' := out;
      ghost var goal := StoredBytes(br.Rest(), len, history, |out|);
      for i := 0 to len
        invariant Valid() && br.Valid() && finalEnded == old(finalEnded)
        invariant old(history) <= history && out' == out + history[|old(history)|..]
        invariant goal == StoredBytes(br.Rest(), len - i, history, |out'|)
      {
        ghost var before, soFar := history, out';
        var b := br.Byte();
        if b.None? {
          return Err(Data), out';
        }
        var ok;
        ok, out' := PushByte(out', b.value);
        if !ok {
          return Err(TooLarge), out';
        }
        AppendSuffix(old(history), before, history, out, soFar, out');
      }
      r := Ok(());
    }

    method InflateStored(br: BitReader, out: seq<byte>) returns (r: Result<(), InflateError>, out': seq<byte>)
      requires Valid() && br.Valid()
      modifies this, br
      ensures Valid() && br.Valid() && finalEnded == old(finalEnded)
      ensures StoredData(old(br.Rest()), old(history), |out|)
              == if r.Ok? then Done(history, br.Rest()) else Fail(r.error, history)
      ensures old(history) <= history && out' == out + history[|old(history)|..]
    {
      hide Valid, BitReader.Valid, BitReader.Rest, ReadNumber, Aligned, StoredBytes;
      ghost var bits := br.Rest();
      br.Align();
      AlignedTwice(bits);
      var len := br.UsizeLe16();
      if len.None? {
        return Err(Data), out;
      }
      var nlen := br.UsizeLe16();
      if nlen.None? {
        return Err(Data), out;
      }
      if len.value + nlen.value != 65535 {
        return Err(Data), out;
      }
      r, out' := CopyStored(br, len.value, out);
    }

    /** Decodes the body of one block of the given kind. */
    method InflateBody(br: BitReader, kind: nat, out: seq<byte>) returns (r: Result<(), InflateError>, out': seq<byte>)
      requires Valid() && br.Valid()
      modifies this, br
      ensures Valid() && br.Valid() && finalEnded == old(finalEnded)
      ensures BlockBody(kind, old(br.Rest()), old(history), |out|)
              == if r.Ok? then Done(history, br.Rest()) else Fail(r.error, history)
      ensures old(history) <= history && out' == out + history[|old(history)|..]
    {
      hide Valid, BitReader.Valid, BitReader.Rest, StoredData, BlockData, ReadHeader, TableFor,
           FixedLiteralLengths, FixedDistanceLengths;
      match kind {
        case 0 =>
          r, out' := InflateStored(br, out);
        case 1 =>
          var lit := FixedLiteralTable();
          var dist := FixedDistanceTable();
          r, out' := InflateBlock(br, lit, dist, out, FixedLiteralLengths(), Some(FixedDistanceLengths()));
        case 2 =>
          var tables, lit, dist := ReadDynamicTables(br);
          if tables.None? {
            return Err(Data), out;
          }
          r, out' := InflateBlock(br, tables.value.0, tables.value.1, out, lit, dist);
        case _ =>
          return Err(Data), out;
      }
    }

    /** Decodes one block and says whether it was the final one. */
    method InflateNext(br: BitReader, out: seq<byte>) returns (r: Result<bool, InflateError>, out': seq<byte>)
      requires Valid() && br.Valid() && br.Rest() != []
      modifies this, br
      ensures Valid() && br.Valid() && finalEnded == old(finalEnded)
      ensures old(history) <= history && out' == out + history[|old(history)|..]
      ensures |br.Rest()| < |old(br.Rest())| || r.Err?
      ensures MessageData(old(br.Rest()), old(history), |out|)
              == match r
                 case Err(error) => Failed(error, history)
                 case Ok(true) => Finished(history, true)
                 case Ok(false) => MessageData(br.Rest(), history, |out'|)
    {
      hide Valid, BitReader.Valid, BitReader.Rest, ReadNumber, BlockBody;
      var finalBlock := br.Bits(1);
      if finalBlock.None? {
        return Err(Data), out;
      }
      var kind := br.Bits(2);
      if kind.None? {
        return Err(Data), out;
      }
      FlagParts(finalBlock.value, kind.value);
      var body;
      body, out' := InflateBody(br, kind.value, out);
      if body.Err? {
        return Err(body.error), out';
      }
      return Ok(finalBlock.value != 0), out';
    }

    /** Decodes one message whose last four octets the sender removed.  The outcome is the
        meaning of its bits on the unbounded history: the bounded window loses nothing. */
    method DecompressMessage(compressed: seq<byte>) returns (r: Result<seq<byte>, InflateError>)
      requires Valid()
      modifies this
      ensures Valid()
      ensures |compressed| > MAX_MESSAGE ==>
                r == Err(TooLarge) && history == old(history) && finalEnded == old(finalEnded)
      ensures |compressed| <= MAX_MESSAGE ==>
                var start := if old(finalEnded) then [] else old(history);
                match Received(compressed, start)
                case Failed(error, h) => r == Err(error) && history == h && !finalEnded
                case Finished(h, final) =>
                  start <= h && r == Ok(h[|start|..]) && history == h && finalEnded == final
    {
      hide BitReader.Valid, BitReader.Rest, BitsOf;
      if |compressed| > MAX_MESSAGE {
        return Err(TooLarge);
      }
      if finalEnded {
        window, history := [], [];
        finalEnded := false;
      }
      var br := new BitReader(compressed + EMPTY_TAIL);
      var out: seq<byte> := [];
      ghost var start := history;
      while true
        invariant Valid() && br.Valid() && fresh(br) && !finalEnded
        invariant start <= history && out == history[|start|..]
        invariant Received(compressed, start) == MessageData(br.Rest(), history, |out|)
        decreases |br.Rest()|
      {
        hide MessageData;
        var empty := br.IsEmpty();
        if empty {
          NothingLeft(history, |out|);
          break;
        }
        ghost var before, soFar := history, out;
        var step;
        step, out := InflateNext(br, out);
        AppendSuffix(start, before, history, [], soFar, out);
        assert out == history[|start|..];
        if step.Err? {
          return Err(step.error);
        }
        if step.value {
          finalEnded := true;
          break;
        }
      }
      return Ok(out);
    }
  }

  lemma NothingLeft(history: seq<byte>, made: nat)
    ensures MessageData([], history, made) == Finished(history, false)
  {
  }

  lemma AlignedTwice(bits: seq<bit>)
    ensures Aligned(Aligned(bits)) == Aligned(bits)
  {
  }

  lemma FlagParts(final: nat, kind: nat)
    requires final < Pow2(1)
    ensures final < 2 && (final + 2 * kind) % 2 == final && (final + 2 * kind) / 2 == kind
  {
  }

  /** If each step appends the same bytes to the history and to the output, so do all. */
  lemma AppendSuffix(h0: seq<byte>, h1: seq<byte>, h2: seq<byte>, o0: seq<byte>, o1: seq<byte>, o2: seq<byte>)
    requires h0 <= h1 <= h2
    requires o1 == o0 + h1[|h0|..] && o2 == o1 + h2[|h1|..]
    ensures o2 == o0 + h2[|h0|..]
  {
    assert h2[|h0|..] == h1[|h0|..] + h2[|h1|..];
  }

  /** The extra bits of the length, the distance symbol and its extra bits. */
  method DecodeReference(br: BitReader, symbol: nat, distTable: Option<Huffman>, ghost dist: Option<seq<nat>>)
      returns (r: Option<(nat, nat)>)
    requires br.Valid() && 257 <= symbol <= 285
    requires distTable.Some? <==> dist.Some?
    requires dist.Some? ==> TableFor(distTable.value, dist.value)
    modifies br
    ensures br.Valid()
    ensures match ReadReference(symbol, dist, old(br.Rest()))
            case None => r == None
            case Some(Reference(len, distance, rest)) =>
              r == Some((len, distance)) && br.Rest() == rest && 0 < distance <= WINDOW_SIZE
  {
    hide BitReader.Valid, BitReader.Rest, ReadNumber, ReadSymbol, TableFor, LengthExtra, LengthBase, DistExtra,
         DistBase;
    ExtraSmall(symbol);
    var lextra := br.Bits(LengthExtra(symbol));
    if lextra.None? || distTable.None? {
      return None;
    }
    var dsym := br.Decode(distTable.value, dist.value);
    if dsym.None? || dsym.value > 29 {
      return None;
    }
    DistanceSmall(dsym.value);
    var dextra := br.Bits(DistExtra(dsym.value));
    if dextra.None? {
      return None;
    }
    return Some((LengthBase(symbol) + lextra.value, DistBase(dsym.value) + dextra.value));
  }

  lemma ExtraSmall(symbol: nat)
    requires 257 <= symbol <= 285
    ensures LengthExtra(symbol) <= 16
  {
  }

  lemma DistanceSmall(dsym: nat)
    requires dsym <= 29
    ensures DistExtra(dsym) <= 16 && DistBase(dsym) + Pow2(DistExtra(dsym)) <= WINDOW_SIZE + 1
  {
    DistBounds(dsym);
  }
}
