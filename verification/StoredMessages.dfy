/** The client's stored-block encoder and its inverse (src/fmtool/src/deflate.rs). */
module StoredMessages {
  import opened Wrappers
  import opened Bits
  import opened BitReaders
  import opened HuffmanTables
  import opened DynamicTables
  import opened InflateSpec
  import opened MessageSpec
  import opened Inflaters

  const CHUNK: nat := 65535

  function Head(n: nat): (r: seq<byte>)
    requires n <= CHUNK
  {
    [0, n % 256, n / 256, (CHUNK - n) % 256, (CHUNK - n) / 256]
  }

  function FirstChunk(data: seq<byte>): (n: nat)
    ensures n <= CHUNK && n <= |data| && (data != [] ==> n > 0)
  {
    if |data| < CHUNK then |data| else CHUNK
  }

  /** Stored blocks of at most 65535 bytes each. */
  function Chunks(data: seq<byte>): seq<byte> {
    if data == [] then []
    else
      var n := FirstChunk(data);
      Head(n) + data[..n] + Chunks(data[n..])
  }

  /** The wire form: the stored blocks and the header of an empty one, whose length octets
      are the removed tail.  Messages over 1 MiB are not encoded. */
  function Wire(data: seq<byte>): seq<byte> {
    if |data| > MAX_MESSAGE then [] else Chunks(data) + [0]
  }

  method CompressStoredMessage(data: seq<byte>) returns (out: seq<byte>)
    ensures out == Wire(data)
  {
    if |data| > MAX_MESSAGE {
      return [];
    }
    hide Head;
    out := [];
    var at := 0;
    assert data[0..] == data;
    while at < |data|
      invariant 0 <= at <= |data|
      invariant out + Chunks(data[at..]) == Chunks(data)
    {
      var n := FirstChunk(data[at..]);
      assert data[at..][..n] == data[at..at + n] && data[at..][n..] == data[at + n..];
      NextChunk(out, data[at..], n);
      out := out + Head(n) + data[at..at + n];
      at := at + n;
    }
    assert Chunks(data[at..]) == [];
    out := out + [0x00, 0x00, 0x00, 0xff, 0xff];
    out := out[..|out| - |EMPTY_TAIL|];
  }

  lemma NextChunk(out: seq<byte>, data: seq<byte>, n: nat)
    requires data != [] && n == FirstChunk(data)
    ensures out + Chunks(data) == out + Head(n) + data[..n] + Chunks(data[n..])
  {
    hide Head;
  }

  /** The blocks the wire form encodes; the last one is the sender's empty block. */
  function Blocks(data: seq<byte>): seq<Block> {
    if data == [] then [Stored(PADDING, [])]
    else
      var n := FirstChunk(data);
      [Stored(PADDING, data[..n])] + Blocks(data[n..])
  }

  lemma {:induction false} BitsOfIsDataBits(data: seq<byte>)
    ensures BitsOf(data) == DataBits(data)
  {
    hide LsbBits, BitsOf, ByteBits, Pow2, LsbVal;
    if data == [] {
      assert |BitsOf(data)| == 0;
    } else {
      BitsOfIsDataBits(data[1..]);
      assert data == [data[0]] + data[1..];
      BitsOfConcat([data[0]], data[1..]);
      OneByte(data[0]);
    }
  }

  lemma OneByte(b: byte)
    ensures BitsOf([b]) == LsbBits(b, OCTET)
  {
    hide LsbVal, Pow2, BitOf, LsbBits;
    ByteBitsVal(b);
    BitsOfSlice([b], 0);
    assert BitsOf([b])[8 * 0..8 * 0 + 8] == BitsOf([b]);
  }

  /** A 16-bit number is its low byte and its high byte. */
  lemma TwoByteNumber(v: nat)
    requires v < 65536
    ensures LsbBits(v, WORD) == LsbBits(v % 256, OCTET) + LsbBits(v / 256, OCTET)
  {
    hide LsbBits, Pow2;
    Pow2Bytes();
    var lo, hi := LsbBits(v % 256, OCTET), LsbBits(v / 256, OCTET);
    LsbRoundTrip(v % 256, 8);
    LsbRoundTrip(v / 256, 8);
    LsbValConcat(lo, hi);
    DoubledByte(v / 256);
    LsbBitsOfVal(lo + hi);
  }

  lemma {:induction false} DataBitsConcat(a: seq<byte>, b: seq<byte>)
    ensures DataBits(a + b) == DataBits(a) + DataBits(b)
  {
    hide LsbBits;
    if a == [] {
      assert a + b == b;
    } else {
      DataBitsConcat(a[1..], b);
      assert (a + b)[1..] == a[1..] + b;
      Assoc(LsbBits(a[0], OCTET), DataBits(a[1..]), DataBits(b));
    }
  }

  function Pair(v: nat): (r: seq<byte>)
    requires v < 65536
    ensures |r| == 2
  {
    [v % 256, v / 256]
  }

  lemma PairBits(v: nat)
    requires v < 65536
    ensures DataBits(Pair(v)) == LsbBits(v, WORD)
  {
    hide LsbBits;
    TwoByteNumber(v);
    var pair := Pair(v);
    assert pair[1..] == [v / 256] && pair[1..][1..] == [];
    assert DataBits(pair[1..]) == LsbBits(v / 256, OCTET) + DataBits([]);
    assert LsbBits(v / 256, OCTET) + [] == LsbBits(v / 256, OCTET);
  }

  const PADDING: seq<bit> := [0, 0, 0, 0, 0]

  lemma ZeroByte()
    ensures DataBits([0]) == LsbBits(0, 1) + LsbBits(0, 2) + PADDING
  {
    LsbBitsIndex(0);
    assert LsbBits(0, 1) == [0] && LsbBits(0, 2) == [0, 0];
    assert DataBits([0]) == LsbBits(0, OCTET) + DataBits([]);
  }

  lemma HeadIs(n: nat)
    requires n <= CHUNK
    ensures Head(n) == [0] + (Pair(n) + Pair(CHUNK - n))
  {
  }

  lemma HeadBits(n: nat)
    requires n <= CHUNK
    ensures DataBits(Head(n)) == DataBits([0]) + (LsbBits(n, WORD) + LsbBits(65535 - n, WORD))
  {
    hide DataBits, LsbBits, Pow2, Head, Pair;
    HeadIs(n);
    DataBitsConcat([0], Pair(n) + Pair(CHUNK - n));
    DataBitsConcat(Pair(n), Pair(CHUNK - n));
    PairBits(n);
    PairBits(CHUNK - n);
  }

  lemma Regroup(all: seq<bit>, head: seq<bit>, zero: seq<bit>, flags: seq<bit>, padding: seq<bit>,
                n: seq<bit>, m: seq<bit>, data: seq<bit>)
    requires zero == flags + padding && head == zero + (n + m) && all == head + data
    ensures all == flags + (padding + (n + (m + data)))
  {
    Assoc(flags + padding, n + m, data);
    Assoc(n, m, data);
    Assoc(flags, padding, n + (m + data));
  }

  lemma ChunkIsStored(data: seq<byte>)
    requires |data| <= CHUNK
    ensures DataBits(Head(|data|) + data) == (LsbBits(0, 1) + LsbBits(0, 2)) + StoredBits(PADDING, data)
  {
    hide LsbBits, DataBits, Pow2, Head, PADDING;
    DataBitsConcat(Head(|data|), data);
    HeadBits(|data|);
    ZeroByte();
    var all, head, zero := DataBits(Head(|data|) + data), DataBits(Head(|data|)), DataBits([0]);
    var n, m, d := LsbBits(|data|, WORD), LsbBits(65535 - |data|, WORD), DataBits(data);
    Regroup(all, head, zero, LsbBits(0, 1) + LsbBits(0, 2), PADDING, n, m, d);
  }

  lemma PaddingIsShort()
    ensures |PADDING| < 8 && CHUNK < 65536
  {
  }

  /** One wire chunk is one non-final stored block. */
  lemma ChunkBits(data: seq<byte>)
    requires |data| <= CHUNK
    ensures BlockFits(Stored(PADDING, data))
    ensures DataBits(Head(|data|) + data) == FlagBits(false, Stored(PADDING, data)) + BodyBits(Stored(PADDING, data))
  {
    hide LsbBits, DataBits, Pow2, Head, StoredBits, BlockFits, FlagBits, BodyBits;
    ChunkIsStored(data);
    PaddingIsShort();
    StoredShape(PADDING, data);
  }

  lemma {:induction false} BlocksExpand(data: seq<byte>, history: seq<byte>)
    ensures BlocksFit(Blocks(data)) && BlocksSize(Blocks(data)) == |data|
    ensures BlocksInHistory(Blocks(data), |history|) && ExpandBlocks(Blocks(data), history) == history + data
    decreases |data|
  {
    var blocks := Blocks(data);
    if data == [] {
      assert blocks[1..] == [] && history + data == history;
    } else {
      var n := FirstChunk(data);
      BlocksExpand(data[n..], history + data[..n]);
      assert blocks[1..] == Blocks(data[n..]);
      assert history + data[..n] + data[n..] == history + data;
    }
  }

  /** The wire bytes and the removed tail are the bits of the stored blocks. */
  lemma {:induction false} BlocksOnTheWire(data: seq<byte>)
    requires BlocksFit(Blocks(data))
    ensures MessageBits(Blocks(data), false, []) == DataBits(Chunks(data) + [0] + EMPTY_TAIL)
    ensures BlocksAligned(Blocks(data), false, [])
    decreases |data|
  {
    hide LsbBits, DataBits, FlagBits, BodyBits;
    var blocks := Blocks(data);
    if data == [] {
      ChunkBits([]);
      assert Chunks(data) + [0] + EMPTY_TAIL == Head(0) + [];
      assert blocks[1..] == [];
      assert BodyBits(blocks[0]) + [] == BodyBits(blocks[0]);
    } else {
      var n := FirstChunk(data);
      var rest := Chunks(data[n..]) + [0] + EMPTY_TAIL;
      assert blocks[1..] == Blocks(data[n..]);
      BlocksOnTheWire(data[n..]);
      ChunkBits(data[..n]);
      assert Chunks(data) + [0] + EMPTY_TAIL == (Head(n) + data[..n]) + rest;
      DataBitsConcat(Head(n) + data[..n], rest);
      Assoc(FlagBits(false, blocks[0]), BodyBits(blocks[0]), DataBits(rest));
    }
  }

  lemma {:induction false} ChunksLength(data: seq<byte>)
    ensures |Chunks(data)| == |data| + 5 * ((|data| + CHUNK - 1) / CHUNK)
    decreases |data|
  {
    if data != [] {
      ChunksLength(data[FirstChunk(data)..]);
    }
  }

  /** An empty wire form is never a message: its tail alone is a truncated block. */
  lemma EmptyWireFails(history: seq<byte>)
    ensures Received([], history) == Failed(Data, history)
  {
    hide LsbBits, Pow2, LsbVal;
    var rest := BitsOf(EMPTY_TAIL)[3..];
    assert [] + EMPTY_TAIL == EMPTY_TAIL;
    BitsOfIsDataBits(EMPTY_TAIL);
    assert EMPTY_TAIL == [0] + [0x00, 0xff, 0xff];
    DataBitsConcat([0], [0x00, 0xff, 0xff]);
    ZeroByte();
    assert BitsOf(EMPTY_TAIL) == LsbBits(0, 1) + LsbBits(0, 2) + rest;
    FlagsRoundTrip(BitsOf(EMPTY_TAIL), false, 0, rest);
    AlignedIs(rest, 3, 5);
    AlignedIs(Aligned(rest)[16..], 1, 0);
  }

  /** A message comes back from the inflater, whatever its state, exactly when its wire
      form is within the decoder's input limit. */
  lemma StoredMessageRoundTrip(data: seq<byte>, history: seq<byte>)
    ensures Received(Wire(data), history) == Finished(history + data, false)
            <==> |data| + 5 * ((|data| + CHUNK - 1) / CHUNK) + 1 <= MAX_MESSAGE
  {
    hide MessageData, MessageBits, BlocksAligned, DataBits, BitsOf;
    ChunksLength(data);
    if |data| > MAX_MESSAGE {
      EmptyWireFails(history);
    } else if |Wire(data)| <= MAX_MESSAGE {
      BlocksExpand(data, history);
      BlocksOnTheWire(data);
      BitsOfIsDataBits(Chunks(data) + [0] + EMPTY_TAIL);
      MessageRoundTrip(Blocks(data), false, [], history, 0);
    }
  }

  /** The size limits of the two ends disagree: a message the encoder accepts can be too
      large for the decoder. */
  lemma LargestMessageIsRefused(data: seq<byte>, history: seq<byte>)
    requires |data| == 1048576
    ensures Wire(data) != [] && Received(Wire(data), history) == Failed(TooLarge, history)
  {
    ChunksLength(data);
  }

  /** Byte by byte: one chunk is its length, low octet first, the complement of the length and
      the data, and a zero octet ends the message. */
  lemma ChunkIsReceived(data: seq<byte>, history: seq<byte>)
    requires 0 < |data| < 65535
    ensures Received([0, |data| % 256, |data| / 256, 255 - |data| % 256, 255 - |data| / 256] + data + [0], history)
            == Finished(history + data, false)
  {
    hide MessageData, Received;
    var head: seq<byte> := [0, |data| % 256, |data| / 256, 255 - |data| % 256, 255 - |data| / 256];
    assert Head(|data|) == head;
    assert data[..|data|] == data && data[|data|..] == [] && Chunks([]) == [];
    assert Chunks(data) == head + data;
    StoredMessageRoundTrip(data, history);
  }
}
