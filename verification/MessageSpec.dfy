/** What a whole DEFLATE message means: a sequence of stored, fixed and dynamic blocks
    (RFC 1951 section 3.2.3), ended by a final block or by the end of the input. */
module MessageSpec {
  import opened Wrappers
  import opened Bits
  import opened CanonicalCode
  import opened HuffmanTables
  import opened BitReaders
  import opened Lz77
  import opened InflateSpec
  import opened DynamicTables

  // ---------- stored blocks ----------

  /** Copies n whole bytes to the output. */
  function StoredBytes(bits: seq<bit>, n: nat, history: seq<byte>, made: nat): (r: Outcome)
    ensures history <= r.history
    ensures r.Done? ==> |r.rest| <= |bits|
    decreases n
  {
    if n == 0 then Done(history, bits)
    else
      match ReadNumber(Aligned(bits), 8)
      case None => Fail(Data, history)
      case Some(Number(b, rest)) =>
        assert Pow2(8) == 256 by { Pow2Add(4, 4); }
        if made >= MAX_MESSAGE then Fail(TooLarge, history)
        else StoredBytes(rest, n - 1, history + [b], made + 1)
  }

  function StoredData(bits: seq<bit>, history: seq<byte>, made: nat): (r: Outcome)
    ensures history <= r.history
    ensures r.Done? ==> |r.rest| <= |bits|
  {
    match ReadNumber(Aligned(bits), 16)
    case None => Fail(Data, history)
    case Some(Number(len, b1)) =>
      match ReadNumber(Aligned(b1), 16)
      case None => Fail(Data, history)
      case Some(Number(nlen, b2)) =>
        if len != 65535 - nlen then Fail(Data, history)
        else StoredBytes(b2, len, history, made)
  }

  // ---------- the fixed code ----------

  function FixedLiteralLengths(): (lengths: seq<nat>)
    ensures |lengths| == 288
  {
    seq(288, s => if s < 144 then 8 else if s < 256 then 9 else if s < 280 then 7 else 8)
  }

  function FixedDistanceLengths(): (lengths: seq<nat>)
    ensures |lengths| == 30
  {
    seq(30, s => 5)
  }

  // ---------- blocks and messages ----------

  ghost function BlockBody(kind: nat, bits: seq<bit>, history: seq<byte>, made: nat): (r: Outcome)
    ensures history <= r.history
    ensures r.Done? ==> |r.rest| <= |bits|
  {
    if kind == 0 then StoredData(bits, history, made)
    else if kind == 1 then
      BlockData(FixedLiteralLengths(), Some(FixedDistanceLengths()), bits, history, made)
    else if kind == 2 then
      match ReadHeader(bits)
      case None => Fail(Data, history)
      case Some(Tables(lit, dist, rest)) => BlockData(lit, dist, rest, history, made)
    else Fail(Data, history)
  }

  /** How a message ended: after a final block, or at the end of the input. */
  datatype MessageOutcome =
    | Finished(history: seq<byte>, final: bool)
    | Failed(error: InflateError, history: seq<byte>)

  /** The final flag and the kind of a block, and the bits after them. */
  function ReadFlags(bits: seq<bit>): (r: Option<Number>)
    ensures r.Some? ==> |r.value.rest| < |bits|
  {
    match ReadNumber(bits, 1)
    case None => None
    case Some(Number(final, rest)) =>
      match ReadNumber(rest, 2)
      case None => None
      case Some(Number(kind, rest')) => Some(Number(final + 2 * kind, rest'))
  }

  ghost function MessageData(bits: seq<bit>, history: seq<byte>, made: nat): (r: MessageOutcome)
    ensures history <= r.history
    decreases |bits|
  {
    if bits == [] then Finished(history, false)
    else
      match ReadFlags(bits)
      case None => Failed(Data, history)
      case Some(Number(flags, rest)) =>
        match BlockBody(flags / 2, rest, history, made)
        case Fail(error, h) => Failed(error, h)
        case Done(h, rest') =>
          if flags % 2 == 1 then Finished(h, true)
          else MessageData(rest', h, made + |h| - |history|)
  }

  // ---------- the encoder ----------

  /** One block.  A stored block carries the bits that fill up the byte before it, which
      RFC 1951 leaves unspecified. */
  datatype Block =
    | Stored(padding: seq<bit>, data: seq<byte>)
    | Fixed(fixed: seq<Token>)
    | Dynamic(header: Header, tokens: seq<Token>)

  function Kind(b: Block): nat {
    match b
    case Stored(_, _) => 0
    case Fixed(_) => 1
    case Dynamic(_, _) => 2
  }

  const OCTET: nat := 8
  const WORD: nat := 16

  /** Whole bytes as bits. */
  function DataBits(data: seq<byte>): (bits: seq<bit>)
    ensures |bits| == 8 * |data|
  {
    if data == [] then [] else LsbBits(data[0], OCTET) + DataBits(data[1..])
  }

  ghost function LitOf(h: Header): seq<nat>
    requires HeaderFits(h)
  {
    HeaderTables(h, []).lit
  }

  ghost function DistOf(h: Header): Option<seq<nat>>
    requires HeaderFits(h)
  {
    HeaderTables(h, []).dist
  }

  /** The block can be written. */
  ghost predicate BlockFits(b: Block) {
    match b
    case Stored(padding, data) => |padding| < 8 && |data| < 65536
    case Fixed(ts) => TokensFit(FixedLiteralLengths(), Some(FixedDistanceLengths()), ts)
                      && Writable(FixedLiteralLengths(), 256)
    case Dynamic(h, ts) => HeaderFits(h) && TokensFit(LitOf(h), DistOf(h), ts) && Writable(LitOf(h), 256)
  }

  function StoredBits(padding: seq<bit>, data: seq<byte>): seq<bit>
    requires |data| < 65536
  {
    padding + (LsbBits(|data|, WORD) + (LsbBits(65535 - |data|, WORD) + DataBits(data)))
  }

  ghost function BodyBits(b: Block): seq<bit>
    requires BlockFits(b)
  {
    match b
    case Stored(padding, data) => StoredBits(padding, data)
    case Fixed(ts) => BlockBits(FixedLiteralLengths(), Some(FixedDistanceLengths()), ts)
    case Dynamic(h, ts) => HeaderBits(h) + BlockBits(LitOf(h), DistOf(h), ts)
  }

  /** A stored block ends on a byte boundary. */
  predicate EndsAligned(b: Block, after: seq<bit>) {
    b.Stored? ==> |after| % 8 == 0
  }

  function FlagBits(final: bool, b: Block): seq<bit> {
    LsbBits(if final then 1 else 0, 1) + LsbBits(Kind(b), 2)
  }

  /** How many bytes a block stands for. */
  function BlockSize(b: Block): nat {
    match b
    case Stored(_, data) => |data|
    case Fixed(ts) => TokensSize(ts)
    case Dynamic(_, ts) => TokensSize(ts)
  }

  predicate BlockInHistory(b: Block, n: nat) {
    match b
    case Stored(_, _) => true
    case Fixed(ts) => DistancesOk(ts, n)
    case Dynamic(_, ts) => DistancesOk(ts, n)
  }

  function ExpandBlock(b: Block, history: seq<byte>): (r: seq<byte>)
    requires BlockInHistory(b, |history|)
    ensures |r| == |history| + BlockSize(b)
  {
    match b
    case Stored(_, data) => history + data
    case Fixed(ts) => Expand(ts, history)
    case Dynamic(_, ts) => Expand(ts, history)
  }

  ghost predicate BlocksFit(blocks: seq<Block>) {
    blocks != [] ==> BlockFits(blocks[0]) && BlocksFit(blocks[1..])
  }

  /** The bits of a message: only its last block may be final, and then anything may trail. */
  ghost function MessageBits(blocks: seq<Block>, final: bool, trailing: seq<bit>): seq<bit>
    requires BlocksFit(blocks)
  {
    if blocks == [] then trailing
    else FlagBits(final && |blocks| == 1, blocks[0])
         + (BodyBits(blocks[0]) + MessageBits(blocks[1..], final, trailing))
  }

  ghost predicate BlocksAligned(blocks: seq<Block>, final: bool, trailing: seq<bit>)
    requires BlocksFit(blocks)
  {
    blocks != [] ==>
      EndsAligned(blocks[0], MessageBits(blocks[1..], final, trailing)) && BlocksAligned(blocks[1..], final, trailing)
  }

  function BlocksSize(blocks: seq<Block>): nat {
    if blocks == [] then 0 else BlockSize(blocks[0]) + BlocksSize(blocks[1..])
  }

  predicate BlocksInHistory(blocks: seq<Block>, n: nat) {
    blocks != [] ==> BlockInHistory(blocks[0], n) && BlocksInHistory(blocks[1..], n + BlockSize(blocks[0]))
  }

  function ExpandBlocks(blocks: seq<Block>, history: seq<byte>): (r: seq<byte>)
    requires BlocksInHistory(blocks, |history|)
    ensures |r| == |history| + BlocksSize(blocks)
  {
    if blocks == [] then history else ExpandBlocks(blocks[1..], ExpandBlock(blocks[0], history))
  }

  /** The blocks form a message: a final one is last, and without one nothing trails. */
  ghost predicate IsMessage(blocks: seq<Block>, final: bool, trailing: seq<bit>) {
    && BlocksFit(blocks) && BlocksAligned(blocks, final, trailing)
    && (if final then blocks != [] else trailing == [])
  }

  // ---------- stored blocks, read and written ----------

  lemma Pow2Bytes()
    ensures Pow2(8) == 256 && Pow2(16) == 65536
  {
    Pow2Add(4, 4);
    Pow2Add(8, 8);
  }

  lemma AtBoundary(bits: seq<bit>)
    ensures |bits| % 8 == 0 ==> Aligned(bits) == bits
  {
  }

  /** Copying n bytes at a boundary succeeds exactly when they are there and fit. */
  lemma {:induction false} StoredBytesRoundTrip(bits: seq<bit>, data: seq<byte>, rest: seq<bit>,
                                                history: seq<byte>, made: nat)
    requires |rest| % 8 == 0 && made <= MAX_MESSAGE && bits == DataBits(data) + rest
    ensures var r := StoredBytes(bits, |data|, history, made);
            if made + |data| <= MAX_MESSAGE then r == Done(history + data, rest)
            else r.Fail? && r.error == TooLarge
    decreases |data|
  {
    hide Aligned, ReadNumber, LsbBits, Pow2;
    if data == [] {
      assert history + data == history && bits == rest;
    } else {
      Pow2Bytes();
      var after := DataBits(data[1..]) + rest;
      Assoc(LsbBits(data[0], OCTET), DataBits(data[1..]), rest);
      BoundaryPlus(data, rest);
      AtBoundary(bits);
      NumberRoundTrip(bits, 8, data[0], after);
      if made < MAX_MESSAGE {
        StoredBytesRoundTrip(after, data[1..], rest, history + [data[0]], made + 1);
        assert history + [data[0]] + data[1..] == history + data;
      }
    }
  }

  lemma BoundaryPlus(data: seq<byte>, rest: seq<bit>)
    requires |rest| % 8 == 0
    ensures |DataBits(data) + rest| % 8 == 0
  {
  }

  lemma AlignedAfterPadding(padding: seq<bit>, body: seq<bit>, n: nat)
    requires |padding| < 8 && |body| == 8 * n
    ensures Aligned(padding + body) == body && Aligned(body) == body
  {
    AlignedIs(padding + body, n, |padding|);
    AlignedIs(body, n, 0);
  }

  lemma StoredReadsBack(padding: seq<bit>, data: seq<byte>, rest: seq<bit>, history: seq<byte>, made: nat)
    requires |padding| < 8 && |data| < 65536 && |rest| % 8 == 0 && made <= MAX_MESSAGE
    ensures var r := StoredData(BodyBits(Stored(padding, data)) + rest, history, made);
            if made + |data| <= MAX_MESSAGE then r == Done(history + data, rest)
            else r.Fail? && r.error == TooLarge
  {
    hide ReadNumber, LsbBits, StoredBytes, Pow2, DataBits, Aligned;
    var n, m := LsbBits(|data|, WORD), LsbBits(65535 - |data|, WORD);
    var tail := DataBits(data) + rest;
    var k := |data| + |rest| / 8;
    Pow2Bytes();
    Assoc(m, DataBits(data), rest);
    Assoc(n, m + DataBits(data), rest);
    Assoc(padding, n + (m + DataBits(data)), rest);
    assert |tail| == 8 * k;
    AlignedAfterPadding(padding, n + (m + tail), k + 4);
    AlignedAfterPadding([], m + tail, k + 2);
    NumberRoundTrip(n + (m + tail), 16, |data|, m + tail);
    NumberRoundTrip(m + tail, 16, 65535 - |data|, tail);
    StoredBytesRoundTrip(tail, data, rest, history, made);
  }

  lemma {:induction false} StoredBytesAreEncoded(bits: seq<bit>, n: nat, history: seq<byte>, made: nat)
      returns (data: seq<byte>)
    requires |bits| % 8 == 0 && made <= MAX_MESSAGE
    requires StoredBytes(bits, n, history, made).Done?
    ensures var r := StoredBytes(bits, n, history, made);
            && |data| == n && made + n <= MAX_MESSAGE && r.history == history + data
            && bits == DataBits(data) + r.rest && |r.rest| % 8 == 0
    decreases n
  {
    hide Aligned, ReadNumber, LsbBits, Pow2;
    if n == 0 {
      data := [];
    } else {
      Pow2Bytes();
      AtBoundary(bits);
      var Number(b, after) := ReadNumber(bits, 8).value;
      NumberRoundTrip(bits, 8, b, after);
      var more := StoredBytesAreEncoded(after, n - 1, history + [b], made + 1);
      data := [b] + more;
      assert data[1..] == more && history + data == history + [b] + more;
      Assoc(LsbBits(b, OCTET), DataBits(more), StoredBytes(bits, n, history, made).rest);
    }
  }

  lemma StoredIsEncoded(bits: seq<bit>, history: seq<byte>, made: nat) returns (b: Block)
    requires made <= MAX_MESSAGE && StoredData(bits, history, made).Done?
    ensures var r := StoredData(bits, history, made);
            && b.Stored? && BlockFits(b) && EndsAligned(b, r.rest)
            && bits == BodyBits(b) + r.rest
            && made + BlockSize(b) <= MAX_MESSAGE && r.history == ExpandBlock(b, history)
  {
    hide LsbBits, StoredBytes, DataBits, ReadNumber, Pow2, Aligned;
    Pow2Bytes();
    var padding := AlignedSplits(bits);
    var a := Aligned(bits);
    var Number(len, b1) := ReadNumber(a, 16).value;
    NumberRoundTrip(a, 16, len, b1);
    StillAligned(a, b1);
    var Number(nlen, b2) := ReadNumber(b1, 16).value;
    NumberRoundTrip(b1, 16, nlen, b2);
    StillAligned(b1, b2);
    var data := StoredBytesAreEncoded(b2, len, history, made);
    b := Stored(padding, data);
    var rest := StoredBytes(b2, len, history, made).rest;
    var n, m := LsbBits(len, WORD), LsbBits(nlen, WORD);
    Assoc(m, DataBits(data), rest);
    Assoc(n, m + DataBits(data), rest);
    Assoc(padding, n + (m + DataBits(data)), rest);
  }

  lemma AlignedSplits(bits: seq<bit>) returns (padding: seq<bit>)
    ensures |padding| < 8 && bits == padding + Aligned(bits) && |Aligned(bits)| % 8 == 0
  {
    padding := bits[..|bits| % 8];
  }

  lemma StillAligned(a: seq<bit>, b: seq<bit>)
    requires |a| % 8 == 0 && |a| == 16 + |b|
    ensures |b| % 8 == 0 && Aligned(b) == b
  {
  }

  /** The parts of a stored block's bits. */
  lemma StoredShape(padding: seq<bit>, data: seq<byte>)
    requires |padding| < 8 && |data| < 65536
    ensures var b := Stored(padding, data);
            BlockFits(b) && BodyBits(b) == StoredBits(padding, data)
                && FlagBits(false, b) == LsbBits(0, 1) + LsbBits(0, 2)
  {
    hide LsbBits, StoredBits, TokensFit, HeaderFits, HeaderBits, BlockBits, FixedLiteralLengths, FixedDistanceLengths;
  }

  // ---------- the fixed code uses every bit pattern ----------

  lemma KraftSnoc(lengths: seq<nat>, k: nat)
    requires AllShort(lengths) && 0 < k <= MAX_BITS
    ensures AllShort(lengths + [k])
    ensures KraftSum(lengths + [k]) == KraftSum(lengths) + Pow2(MAX_BITS - k)
  {
    assert (lengths + [k])[..|lengths|] == lengths;
  }

  lemma {:induction false} KraftOfCopies(lengths: seq<nat>, k: nat, n: nat)
    requires AllShort(lengths) && 0 < k <= MAX_BITS
    ensures AllShort(lengths + Copies(k, n))
    ensures KraftSum(lengths + Copies(k, n)) == KraftSum(lengths) + n * Pow2(MAX_BITS - k)
  {
    hide Pow2, KraftSum;
    if n == 0 {
      assert lengths + Copies(k, n) == lengths;
    } else {
      KraftOfCopies(lengths, k, n - 1);
      assert lengths + Copies(k, n) == lengths + Copies(k, n - 1) + [k];
      KraftSnoc(lengths + Copies(k, n - 1), k);
      Distribute(n, Pow2(MAX_BITS - k));
    }
  }

  lemma Distribute(n: nat, p: nat)
    requires n > 0
    ensures n * p == (n - 1) * p + p
  {
  }

  /** The fixed literal code is complete; both fixed codes can write all their symbols. */
  lemma FixedCodesFit()
    ensures AllShort(FixedLiteralLengths()) && KraftSum(FixedLiteralLengths()) == Pow2(MAX_BITS)
    ensures AllShort(FixedDistanceLengths())
    ensures forall s: nat :: s < 288 ==> Writable(FixedLiteralLengths(), s)
    ensures forall s: nat :: s < 30 ==> Writable(FixedDistanceLengths(), s)
  {
    var a := [] + Copies(8, 144);
    var b := a + Copies(9, 112);
    var c := b + Copies(7, 24);
    assert FixedLiteralLengths() == c + Copies(8, 8);
    assert FixedDistanceLengths() == [] + Copies(5, 30);
    KraftOfCopies([], 8, 144);
    KraftOfCopies(a, 9, 112);
    KraftOfCopies(b, 7, 24);
    KraftOfCopies(c, 8, 8);
    KraftOfCopies([], 5, 30);
    Pow2Small();
    Pow2Add(7, 8);
    CodesFitIffKraft(FixedLiteralLengths());
    CodesFitIffKraft(FixedDistanceLengths());
    assert forall s: nat :: s < 288 ==> FixedLiteralLengths()[s] != 0;
    assert forall s: nat :: s < 30 ==> FixedDistanceLengths()[s] != 0;
  }

  // ---------- one block, read and written ----------

  /** Reading the body of a written block gives its expansion, unless that is too large. */
  lemma BodyReadsBack(b: Block, rest: seq<bit>, history: seq<byte>, made: nat)
    requires BlockFits(b) && EndsAligned(b, rest) && BlockInHistory(b, |history|) && made <= MAX_MESSAGE
    ensures var r := BlockBody(Kind(b), BodyBits(b) + rest, history, made);
            if made + BlockSize(b) <= MAX_MESSAGE then r == Done(ExpandBlock(b, history), rest)
            else r.Fail? && r.error == TooLarge
  {
    hide StoredData, BlockData, ReadHeader, BlockBits, HeaderFits, HeaderTables, HeaderBits, Writable, TokensFit,
         FixedLiteralLengths, FixedDistanceLengths, AllShort, TokensSize, DistancesOk, Expand;
    match b
    case Stored(padding, data) => StoredReadsBack(padding, data, rest, history, made);
    case Fixed(ts) =>
      FixedCodesFit();
      BlockRoundTrip(FixedLiteralLengths(), Some(FixedDistanceLengths()), ts, rest, history, made);
    case Dynamic(h, ts) =>
      var lit, dist := LitOf(h), DistOf(h);
      var body := BlockBits(lit, dist, ts);
      Assoc(HeaderBits(h), body, rest);
      HeaderReadsBack(h, body + rest);
      SameTables(h, body + rest);
      HeaderTablesShort(h, []);
      BlockRoundTrip(lit, dist, ts, rest, history, made);
  }

  lemma SameTables(h: Header, rest: seq<bit>)
    requires HeaderFits(h)
    ensures HeaderTables(h, rest) == Tables(LitOf(h), DistOf(h), rest)
  {
  }

  /** Every block body that is read was written so. */
  lemma BodyIsEncoded(kind: nat, bits: seq<bit>, history: seq<byte>, made: nat) returns (b: Block)
    requires made <= MAX_MESSAGE && BlockBody(kind, bits, history, made).Done?
    ensures var r := BlockBody(kind, bits, history, made);
            && Kind(b) == kind && BlockFits(b) && EndsAligned(b, r.rest)
            && bits == BodyBits(b) + r.rest
            && made + BlockSize(b) <= MAX_MESSAGE
            && BlockInHistory(b, |history|) && r.history == ExpandBlock(b, history)
  {
    hide StoredData, BlockData, ReadHeader, BlockBits, HeaderFits, HeaderTables, HeaderBits, Writable, TokensFit,
         FixedLiteralLengths, FixedDistanceLengths, AllShort, TokensSize, DistancesOk, Expand, TokenFits;
    if kind == 0 {
      b := StoredIsEncoded(bits, history, made);
    } else if kind == 1 {
      FixedCodesFit();
      var ts := BlockIsEncoded(FixedLiteralLengths(), Some(FixedDistanceLengths()), bits, history, made);
      b := Fixed(ts);
    } else {
      var h := HeaderIsEncoded(bits);
      var Tables(lit, dist, rest) := ReadHeader(bits).value;
      SameTables(h, rest);
      HeaderTablesShort(h, []);
      var ts := BlockIsEncoded(lit, dist, rest, history, made);
      b := Dynamic(h, ts);
      Assoc(HeaderBits(h), BlockBits(lit, dist, ts), BlockBody(kind, bits, history, made).rest);
    }
  }

  lemma FlagsRoundTrip(bits: seq<bit>, final: bool, kind: nat, rest: seq<bit>)
    requires kind < 4
    ensures ReadFlags(bits) == Some(Number((if final then 1 else 0) + 2 * kind, rest)) <==>
            bits == LsbBits(if final then 1 else 0, 1) + LsbBits(kind, 2) + rest
  {
    hide ReadNumber, LsbBits, Pow2;
    var f := if final then 1 else 0;
    assert Pow2(1) == 2 && Pow2(2) == 4 by { Pow2Small(); }
    Assoc(LsbBits(f, 1), LsbBits(kind, 2), rest);
    NumberRoundTrip(LsbBits(f, 1) + (LsbBits(kind, 2) + rest), 1, f, LsbBits(kind, 2) + rest);
    NumberRoundTrip(LsbBits(kind, 2) + rest, 2, kind, rest);
    if ReadFlags(bits) == Some(Number(f + 2 * kind, rest)) {
      var Number(f', b1) := ReadNumber(bits, 1).value;
      NumberRoundTrip(bits, 1, f', b1);
      var Number(k', b2) := ReadNumber(b1, 2).value;
      NumberRoundTrip(b1, 2, k', b2);
    }
  }

  // ---------- whole messages ----------

  /** Decoding a written message gives the expansion of its blocks; it fails, and then
      with TooLarge, exactly when that passes 1 MiB. */
  lemma {:induction false} MessageRoundTrip(blocks: seq<Block>, final: bool, trailing: seq<bit>,
                                            history: seq<byte>, made: nat)
    requires IsMessage(blocks, final, trailing)
    requires BlocksInHistory(blocks, |history|) && made <= MAX_MESSAGE
    ensures var r := MessageData(MessageBits(blocks, final, trailing), history, made);
            if made + BlocksSize(blocks) <= MAX_MESSAGE then r == Finished(ExpandBlocks(blocks, history), final)
            else r.Failed? && r.error == TooLarge
    decreases |blocks|
  {
    hide BlockFits, EndsAligned, BlockBody, ReadFlags, BodyBits, BlockInHistory, ExpandBlock, BlockSize, Kind, LsbBits;
    if blocks != [] {
      var b, last := blocks[0], final && |blocks| == 1;
      var tail := MessageBits(blocks[1..], final, trailing);
      var bits := MessageBits(blocks, final, trailing);
      KindSmall(b);
      FlagsRoundTrip(bits, last, Kind(b), BodyBits(b) + tail);
      BodyReadsBack(b, tail, history, made);
      if made + BlockSize(b) <= MAX_MESSAGE && !last {
        MessageRoundTrip(blocks[1..], final, trailing, ExpandBlock(b, history), made + BlockSize(b));
      }
    }
  }

  lemma KindSmall(b: Block)
    ensures Kind(b) < 3
  {
  }

  /** The blocks a successful decoding stands for. */
  ghost predicate ExplainsMessage(blocks: seq<Block>, trailing: seq<bit>, bits: seq<bit>,
                                  history: seq<byte>, made: nat, r: MessageOutcome)
  {
    && r.Finished? && IsMessage(blocks, r.final, trailing)
    && BlocksInHistory(blocks, |history|) && made + BlocksSize(blocks) <= MAX_MESSAGE
    && bits == MessageBits(blocks, r.final, trailing)
    && r.history == ExpandBlocks(blocks, history)
  }

  /** Whatever message the decoder accepts is the encoding of blocks whose expansion it
      returned. */
  lemma {:induction false} MessageIsEncoded(bits: seq<bit>, history: seq<byte>, made: nat)
      returns (blocks: seq<Block>, trailing: seq<bit>)
    requires made <= MAX_MESSAGE && MessageData(bits, history, made).Finished?
    ensures ExplainsMessage(blocks, trailing, bits, history, made, MessageData(bits, history, made))
    decreases |bits|
  {
    hide BlockFits, EndsAligned, BlockBody, ReadFlags, BodyBits, BlockInHistory, ExpandBlock, BlockSize, Kind, LsbBits;
    var r := MessageData(bits, history, made);
    if bits == [] {
      blocks, trailing := [], [];
    } else {
      var Number(flags, rest) := ReadFlags(bits).value;
      var b := BodyIsEncoded(flags / 2, rest, history, made);
      var Done(h, rest') := BlockBody(flags / 2, rest, history, made);
      KindSmall(b);
      FlagsRoundTrip(bits, flags % 2 == 1, Kind(b), rest);
      if flags % 2 == 1 {
        blocks, trailing := [b], rest';
        assert blocks[1..] == [];
        assert MessageBits([], true, trailing) == trailing;
        assert MessageBits(blocks, true, trailing) == FlagBits(true, b) + (BodyBits(b) + trailing);
      } else {
        var more;
        more, trailing := MessageIsEncoded(rest', h, made + |h| - |history|);
        blocks := [b] + more;
        assert blocks[1..] == more;
        assert MessageBits(blocks, r.final, trailing)
            == FlagBits(false, b) + (BodyBits(b) + MessageBits(more, r.final, trailing));
      }
    }
    assert BlocksFit(blocks);
    assert BlocksAligned(blocks, r.final, trailing);
    assert BlocksInHistory(blocks, |history|) && r.history == ExpandBlocks(blocks, history);
  }
}
