/** Decoding Huffman-coded header strings (RFC 7541 section 5.2;
    src/fastapi_mojo_rs/src/bridge/hpack_huffman.rs). */
module HpackHuffman {
  import opened Wrappers
  import opened Bits
  import opened CanonicalCode
  import opened HpackCode

  /** The bits of a byte, most significant first. */
  function MsbByte(b: byte): (bits: seq<bit>)
    ensures |bits| == 8
  {
    [BitOf(b, 7), BitOf(b, 6), BitOf(b, 5), BitOf(b, 4), BitOf(b, 3), BitOf(b, 2), BitOf(b, 1), BitOf(b, 0)]
  }

  function InputBits(input: seq<byte>): (bits: seq<bit>)
    ensures |bits| == 8 * |input|
  {
    if input == [] then [] else MsbByte(input[0]) + InputBits(input[1..])
  }

  function Ones(n: nat): (bits: seq<bit>)
    ensures |bits| == n
  {
    seq(n, _ => 1)
  }

  // ---------- the specification ----------

  /** The codes of a byte string, one after the other. */
  function Encode(s: seq<byte>): seq<bit> {
    if s == [] then [] else WordBits(CodeOf(s[0])) + Encode(s[1..])
  }

  /** `bits` is `code` followed by fewer than eight one bits. */
  predicate PaddedTo(code: seq<bit>, bits: seq<bit>) {
    code <= bits && |bits| - |code| < 8 && bits[|code|..] == Ones(|bits| - |code|)
  }

  /** Decodes symbol by symbol; what is left when no code matches must be padding, and
      the EOS symbol is an error. */
  ghost function DecodedFrom(bits: seq<bit>, out: seq<byte>): Option<seq<byte>>
    decreases |bits|
  {
    match ReadWord(Book(), bits)
    case None => if |bits| < 8 && bits == Ones(|bits|) then Some(out) else None
    case Some(Symbol(s, rest)) => if s == EOS then None else DecodedFrom(rest, out + [s])
  }

  // ---------- what is accepted, exactly ----------

  lemma CodeFits(s: nat)
    requires s <= EOS
    ensures Fits(CodeOf(s)) && 0 < CodeOf(s).len <= 30
  {
    hide CodeOf, First;
    FoundIsWithin(s);
    BookIsComplete();
    PastFits(COUNT, CodeOf(s).len, 30);
  }

  lemma ReadsCode(s: byte, rest: seq<bit>)
    ensures ReadWord(Book(), WordBits(CodeOf(s)) + rest) == Some(Symbol(s, rest))
  {
    hide CodeOf, Book, WordBits, ReadWord, IsCanonical, Fits;
    CodeFits(s);
    BookIsCanonical();
    WordRoundTrip(Book(), COUNT, WordBits(CodeOf(s)) + rest, s, rest);
  }

  lemma {:induction false} OnesVal(bits: seq<bit>)
    ensures MsbVal(bits) == Pow2(|bits|) - 1 <==> bits == Ones(|bits|)
  {
    if bits != [] {
      var front := bits[..|bits| - 1];
      OnesVal(front);
      assert bits == front + [bits[|bits| - 1]];
    }
  }

  /** Fewer than eight one bits start no code. */
  lemma PaddingIsNoCode(n: nat)
    requires n < 8
    ensures ReadWord(Book(), Ones(n)) == None
  {
    hide CodeOf, First, Pow2, MsbVal;
    BookIsComplete();
    BookIsCanonical();
    forall s: nat
      ensures !Heads(Book(), Ones(n), s)
    {
      if Heads(Book(), Ones(n), s) {
        var k := CodeOf(s).len;
        assert Ones(n)[..k] == Ones(k);
        OnesVal(Ones(k));
        FoundIsWithin(s);
      }
    }
  }

  lemma PaddedCons(word: seq<bit>, code: seq<bit>, bits: seq<bit>)
    ensures PaddedTo(word + code, bits) <==> word <= bits && PaddedTo(code, bits[|word|..])
  {
  }

  lemma EncodeCons(b: byte, s: seq<byte>)
    ensures Encode([b] + s) == WordBits(CodeOf(b)) + Encode(s)
  {
    assert ([b] + s)[1..] == s;
  }

  /** An encoding is decoded to its byte string. */
  lemma {:induction false} EncodingIsAccepted(s: seq<byte>, bits: seq<bit>, out: seq<byte>)
    requires PaddedTo(Encode(s), bits)
    ensures DecodedFrom(bits, out) == Some(out + s)
    decreases |s|
  {
    hide CodeOf, Book, WordBits, ReadWord, PaddedTo;
    if s == [] {
      PaddedIsOnes(bits);
      PaddingIsNoCode(|bits|);
      assert out + s == out;
    } else {
      var word := WordBits(CodeOf(s[0]));
      PaddedCons(word, Encode(s[1..]), bits);
      var rest := bits[|word|..];
      assert bits == word + rest;
      ReadsCode(s[0], rest);
      EncodingIsAccepted(s[1..], rest, out + [s[0]]);
      assert out + [s[0]] + s[1..] == out + s;
    }
  }

  lemma PaddedIsOnes(bits: seq<bit>)
    ensures PaddedTo([], bits) <==> |bits| < 8 && bits == Ones(|bits|)
  {
    assert bits[0..] == bits;
  }

  /** Whatever is accepted is an encoding of the result. */
  lemma {:induction false} AcceptedIsEncoding(bits: seq<bit>, out: seq<byte>) returns (s: seq<byte>)
    requires DecodedFrom(bits, out).Some?
    ensures DecodedFrom(bits, out) == Some(out + s) && PaddedTo(Encode(s), bits)
    decreases |bits|
  {
    hide CodeOf, Book, WordBits, ReadWord, PaddedTo, IsCanonical, Fits;
    var next := ReadWord(Book(), bits);
    if next.None? {
      s := [];
      PaddedIsOnes(bits);
      assert out + s == out;
    } else {
      var Symbol(b, rest) := next.value;
      var more := AcceptedIsEncoding(rest, out + [b]);
      s := [b] + more;
      BookIsCanonical();
      WordRoundTrip(Book(), COUNT, bits, b, rest);
      EncodeCons(b, more);
      PaddedCons(WordBits(CodeOf(b)), Encode(more), bits);
      assert out + [b] + more == out + s;
    }
  }

  /** The decoder accepts exactly the encodings of section 5.2: the codes of some byte
      string padded with fewer than eight one bits. */
  lemma AcceptsExactlyEncodings(bits: seq<bit>, s: seq<byte>)
    ensures DecodedFrom(bits, []) == Some(s) <==> PaddedTo(Encode(s), bits)
  {
    hide DecodedFrom, PaddedTo, Encode;
    if PaddedTo(Encode(s), bits) {
      EncodingIsAccepted(s, bits, []);
      assert [] + s == s;
    }
    if DecodedFrom(bits, []) == Some(s) {
      var s' := AcceptedIsEncoding(bits, []);
      assert [] + s' == s';
    }
  }

  // ---------- one encoding per string ----------

  lemma {:induction false} InputBitsInjective(a: seq<byte>, b: seq<byte>)
    requires InputBits(a) == InputBits(b)
    ensures a == b
  {
    hide BitOf;
    if a != [] {
      assert InputBits(a)[..8] == MsbByte(a[0]) && InputBits(b)[..8] == MsbByte(b[0]);
      assert InputBits(a)[8..] == InputBits(a[1..]) && InputBits(b)[8..] == InputBits(b[1..]);
      MsbByteInjective(a[0], b[0]);
      InputBitsInjective(a[1..], b[1..]);
    }
  }

  lemma MsbByteInjective(a: byte, b: byte)
    requires MsbByte(a) == MsbByte(b)
    ensures a == b
  {
    ByteBitsVal(a);
    ByteBitsVal(b);
    forall i: nat | i < 8
      ensures ByteBits(a)[i] == ByteBits(b)[i]
    {
      assert ByteBits(a)[i] == MsbByte(a)[7 - i] && ByteBits(b)[i] == MsbByte(b)[7 - i];
    }
    assert ByteBits(a) == ByteBits(b);
  }

  /** No two inputs decode to the same string. */
  lemma DecodingIsInjective(a: seq<byte>, b: seq<byte>)
    requires DecodedFrom(InputBits(a), []).Some? && DecodedFrom(InputBits(a), []) == DecodedFrom(InputBits(b), [])
    ensures a == b
  {
    hide DecodedFrom, Encode, InputBits;
    var s := DecodedFrom(InputBits(a), []).value;
    AcceptsExactlyEncodings(InputBits(a), s);
    AcceptsExactlyEncodings(InputBits(b), s);
    var code := Encode(s);
    assert InputBits(a) == code + Ones(|InputBits(a)| - |code|);
    assert InputBits(b) == code + Ones(|InputBits(b)| - |code|);
    InputBitsInjective(a, b);
  }

  // ---------- the encoder ----------

  function Reversed8(bits: seq<bit>): (r: seq<bit>)
    requires |bits| == 8
    ensures |r| == 8
  {
    [bits[7], bits[6], bits[5], bits[4], bits[3], bits[2], bits[1], bits[0]]
  }

  /** The byte with these bits, most significant first. */
  function PackByte(bits: seq<bit>): (b: byte)
    requires |bits| == 8
  {
    assert Pow2(8) == 256 by { Pow2Small(); }
    LsbVal(Reversed8(bits))
  }

  lemma PackedByte(bits: seq<bit>)
    requires |bits| == 8
    ensures MsbByte(PackByte(bits)) == bits
  {
    hide LsbVal, Pow2;
    var b := PackByte(bits);
    LsbBitsOfVal(Reversed8(bits));
    LsbBitsIndex(b);
    assert ByteBits(b) == Reversed8(bits);
    forall i: nat | i < 8
      ensures MsbByte(b)[i] == bits[i]
    {
      assert MsbByte(b)[i] == ByteBits(b)[7 - i];
    }
  }

  function Pack(bits: seq<bit>): (bytes: seq<byte>)
    requires |bits| % 8 == 0
    decreases |bits|
  {
    if bits == [] then [] else [PackByte(bits[..8])] + Pack(bits[8..])
  }

  lemma {:induction false} PackedBits(bits: seq<bit>)
    requires |bits| % 8 == 0
    ensures InputBits(Pack(bits)) == bits
    decreases |bits|
  {
    hide PackByte, MsbByte;
    if bits != [] {
      PackedBits(bits[8..]);
      assert Pack(bits)[1..] == Pack(bits[8..]);
      PackedByte(bits[..8]);
    }
  }

  function Padding(code: seq<bit>): (n: nat)
    ensures n < 8 && (|code| + n) % 8 == 0
  {
    (8 - |code| % 8) % 8
  }

  /** The encoder of section 5.2. */
  function HuffmanEncode(s: seq<byte>): seq<byte> {
    Pack(Encode(s) + Ones(Padding(Encode(s))))
  }

  /** Decoding inverts the encoder on every byte string. */
  lemma DecodeEncode(s: seq<byte>)
    ensures DecodedFrom(InputBits(HuffmanEncode(s)), []) == Some(s)
  {
    hide DecodedFrom, Encode, InputBits, Pack;
    var code := Encode(s);
    PackedBits(code + Ones(Padding(code)));
    assert (code + Ones(Padding(code)))[|code|..] == Ones(Padding(code));
    AcceptsExactlyEncodings(code + Ones(Padding(code)), s);
  }

  // ---------- the decoder ----------

  datatype HuffmanError = Invalid

  /** The first of the 256 byte symbols with this code, as the table scan finds it. */
  method FindSymbol(code: nat, bits: nat) returns (r: Option<byte>)
    ensures r.Some? ==> CodeOf(r.value) == Word(code, bits)
    ensures r.None? ==> forall s: nat :: s < EOS ==> CodeOf(s) != Word(code, bits)
  {
    hide CodeOf;
    for s := 0 to EOS
      invariant forall t: nat :: t < s ==> CodeOf(t) != Word(code, bits)
    {
      if CodeOf(s) == Word(code, bits) {
        return Some(s);
      }
    }
    return None;
  }

  /** What holds between two bits: the bits since the last symbol start no code. */
  ghost predicate Pending(pending: seq<bit>, code: nat, bits: nat) {
    && ReadWord(Book(), pending) == None
    && code == MsbVal(pending) && bits == |pending| < 30
  }

  lemma PushHit(pending: seq<bit>, code: nat, bits: nat, b: bit, rest: seq<bit>, s: nat)
    requires Pending(pending, code, bits) && s <= EOS
    requires CodeOf(s) == Word(2 * code + b, bits + 1)
    ensures ReadWord(Book(), pending + [b] + rest) == Some(Symbol(s, rest))
  {
    hide CodeOf, Book, ReadWord, IsCanonical, Fits;
    assert (pending + [b])[..|pending|] == pending;
    MsbBitsOfVal(pending + [b]);
    CodeFits(s);
    BookIsCanonical();
    WordRoundTrip(Book(), COUNT, pending + [b] + rest, s, rest);
  }

  /** A code that heads the longer string heads the shorter one or ends with the new bit. */
  lemma HeadsOfPush(pending: seq<bit>, b: bit, s: nat)
    requires Heads(Book(), pending + [b], s)
    ensures s <= EOS
    ensures Heads(Book(), pending, s) || CodeOf(s) == Word(MsbVal(pending + [b]), |pending| + 1)
  {
    hide CodeOf, First, Pow2, MsbVal;
    var now, k := pending + [b], CodeOf(s).len;
    if k <= |pending| {
      assert now[..k] == pending[..k];
    } else {
      assert now[..k] == now;
    }
  }

  lemma LongStringsHead(now: seq<bit>)
    requires |now| == 30
    ensures !NoneHeads(Book(), now)
  {
    hide CodeOf, First, Pow2;
    BookIsCanonical();
    BookIsComplete();
    var s := CompleteCodeMatches(Book(), COUNT, now);
    assert Heads(Book(), now, s);
  }

  lemma PushMiss(pending: seq<bit>, code: nat, bits: nat, b: bit)
    requires Pending(pending, code, bits)
    requires forall s: nat :: s <= EOS ==> CodeOf(s) != Word(2 * code + b, bits + 1)
    ensures Pending(pending + [b], 2 * code + b, bits + 1)
  {
    hide CodeOf, Book, Heads, Pow2;
    var now := pending + [b];
    assert now[..|pending|] == pending;
    forall s: nat ensures !Heads(Book(), now, s) {
      if Heads(Book(), now, s) {
        HeadsOfPush(pending, b, s);
      }
    }
    if |now| == 30 {
      LongStringsHead(now);
    }
  }

  /** One more bit: a refusal, a symbol, or a longer pending string. */
  method PushBit(code: nat, bits: nat, b: bit, ghost pending: seq<bit>, ghost rest: seq<bit>, ghost out: seq<byte>)
    returns (refused: bool, symbol: Option<byte>)
    requires Pending(pending, code, bits)
    ensures refused ==> DecodedFrom(pending + [b] + rest, out) == None
    ensures !refused && symbol.Some?
            ==> DecodedFrom(pending + [b] + rest, out) == DecodedFrom(rest, out + [symbol.value])
    ensures !refused && symbol.None? ==> Pending(pending + [b], 2 * code + b, bits + 1)
  {
    hide CodeOf, Book, ReadWord, MsbVal, Pow2, Pending;
    if CodeOf(EOS) == Word(2 * code + b, bits + 1) {
      PushHit(pending, code, bits, b, rest, EOS);
      return true, None;
    }
    symbol := FindSymbol(2 * code + b, bits + 1);
    if symbol.Some? {
      PushHit(pending, code, bits, b, rest, symbol.value);
    } else {
      PushMiss(pending, code, bits, b);
    }
    return false, symbol;
  }

  /** Bit-serial decoding; the code register never holds more than 29 unmatched bits. */
  method Decode(input: seq<byte>) returns (r: Result<seq<byte>, HuffmanError>)
    ensures r == match DecodedFrom(InputBits(input), []) case Some(out) => Ok(out) case None => Err(Invalid)
  {
    hide CodeOf, Book, ReadWord, BitOf, MsbVal, Pow2;
    var out: seq<byte> := [];
    var code: nat, bits: nat := 0, 0;
    ghost var pending: seq<bit> := [];
    NothingPending();
    assert pending + InputBits(input[0..]) == InputBits(input);
    for k := 0 to |input|
      invariant Pending(pending, code, bits)
      invariant DecodedFrom(InputBits(input), []) == DecodedFrom(pending + InputBits(input[k..]), out)
    {
      ghost var byteBits, later := MsbByte(input[k]), InputBits(input[k + 1..]);
      assert input[k..][1..] == input[k + 1..];
      assert pending + InputBits(input[k..]) == pending + (byteBits[0..] + later);
      for i := 0 to 8
        invariant Pending(pending, code, bits)
        invariant DecodedFrom(InputBits(input), []) == DecodedFrom(pending + (byteBits[i..] + later), out)
      {
        var b := BitOf(input[k], 7 - i);
        ghost var rest := byteBits[i + 1..] + later;
        assert b == byteBits[i] && pending + (byteBits[i..] + later) == pending + [b] + rest;
        var refused, symbol := PushBit(code, bits, b, pending, rest, out);
        if refused {
          return Err(Invalid);
        }
        if symbol.Some? {
          out := out + [symbol.value];
          code, bits, pending := 0, 0, [];
          NothingPending();
          assert [] + rest == rest;
        } else {
          code, bits, pending := 2 * code + b, bits + 1, pending + [b];
        }
      }
      assert byteBits[8..] + later == later;
    }
    assert pending + InputBits(input[|input|..]) == pending;
    OnesVal(pending);
    if bits >= 8 {
      return Err(Invalid);
    }
    if bits > 0 && code != Pow2(bits) - 1 {
      return Err(Invalid);
    }
    assert bits == 0 ==> pending == Ones(0);
    return Ok(out);
  }

  lemma NothingPending()
    ensures Pending([], 0, 0)
  {
  }
}
