/** Examples of RFC 7541 Appendix C, octet by octet. */
module HpackExamples {
  import opened Wrappers
  import opened Bits
  import opened CanonicalCode
  import opened AsciiText
  import opened HpackCode
  import Huff = HpackHuffman
  import opened HpackPrimitives
  import opened Hpack
  import opened HpackLiterals
  import Client = Http2ResponseReader

  // ---------- integers (C.1) and single fields (C.2) ----------

  lemma GroupsOf1306()
    ensures Groups(1306) == [154, 10]
  {
    assert Groups(10) == [10];
  }

  /** 10 and 1337 with five bits of prefix, and the largest table size in its update. */
  lemma Integers()
    ensures IntegerBytes(10, 5, 0) == [0x0a] && IntegerBytes(1337, 5, 0) == [0x1f, 0x9a, 0x0a]
    ensures RepresentationBytes(Resize(4096)) == [0x3f, 0xe1, 0x1f]
  {
    GroupsOf1306();
    assert Groups(31) == [31];
    assert Groups(4065) == [225, 31];
  }

  function Custom(): Field {
    Field(Ascii("custom-key"), Ascii("custom-header"))
  }

  /** A literal field with indexing, whatever the table holds. */
  lemma LiteralWithIndexing(t: Table)
    ensures ReadBlock(t, [0x40, 0x0a] + Ascii("custom-key") + [0x0d] + Ascii("custom-header"), true, [])
            == Block(Inserted(t, Custom()), Ok([Custom()]))
  {
    hide Ascii, ReadBlock;
    var key, value := Ascii("custom-key"), Ascii("custom-header");
    var r := Literal(Incremental, 0, Plain(key), Plain(value));
    var bytes := [0x40, 0x0a] + key + [0x0d] + value;
    assert RepresentationBytes(r) == bytes;
    OneRepresentation(t, r, bytes);
    MeaningOfOne(t, r, Custom());
  }

  lemma MeaningOfOne(t: Table, r: Representation, f: Field)
    requires r.Literal? && r.nameIndex == 0 && f == Field(r.name.text, r.value.text)
    ensures BlockMeaning(t, [r], true, []) == Block(if r.indexing.Incremental? then Inserted(t, f) else t, Ok([f]))
  {
    var rs := [r];
    assert rs[1..] == [] && [] + [f] == [f];
    var step := Meaning(t, r, true, []).value;
    assert BlockMeaning(step.table, [], false, [f]) == Block(step.table, Ok([f]));
  }

  /** A field that must never be indexed is read, and not indexed. */
  lemma NeverIndexed(t: Table)
    ensures ReadBlock(t, [0x10, 0x08] + Ascii("password") + [0x06] + Ascii("secret"), true, [])
            == Block(t, Ok([Field(Ascii("password"), Ascii("secret"))]))
  {
    hide Ascii, ReadBlock;
    var key, value := Ascii("password"), Ascii("secret");
    var r := Literal(Never, 0, Plain(key), Plain(value));
    var bytes := [0x10, 0x08] + key + [0x06] + value;
    assert RepresentationBytes(r) == bytes;
    OneRepresentation(t, r, bytes);
    MeaningOfOne(t, r, Field(key, value));
  }

  /** A literal value with an indexed name, not indexed itself. */
  lemma IndexedNameOnly(t: Table)
    ensures ReadBlock(t, [0x04, 0x0c] + Ascii("/sample/path"), true, [])
            == Block(t, Ok([Field(Ascii(":path"), Ascii("/sample/path"))]))
  {
    hide Ascii, ReadBlock;
    var value := Ascii("/sample/path");
    var r := Named(4, value);
    var bytes := [0x04, 0x0c] + value;
    assert RepresentationBytes(r) == bytes;
    assert FieldsOf([r]) == [Field(Ascii(":path"), value)];
    var rs := [r];
    assert rs[1..] == [] && BlockBytes(rs[1..]) == [] && bytes + [] == bytes;
    assert BlockBytes(rs) == bytes;
    StatelessBlock(t, rs);
  }

  // ---------- single octets ----------

  lemma OneRepresentation(t: Table, r: Representation, bytes: seq<byte>)
    requires Encodable(r) && RepresentationBytes(r) == bytes
    ensures ReadBlock(t, bytes, true, []) == BlockMeaning(t, [r], true, [])
  {
    hide RepresentationBytes, BlockMeaning, Encodable, ReadBlock;
    var rs := [r];
    assert rs[1..] == [] && BlockBytes(rs[1..]) == [];
    assert bytes + [] == bytes;
    BlockReadsBack(t, rs, true, []);
  }

  /** The values of the static table; entries not listed have none. */
  function StaticValue(index: nat): seq<byte> {
    match index
    case 2 => Ascii("GET") case 3 => Ascii("POST") case 4 => Ascii("/") case 5 => Ascii("/index.html")
    case 6 => Ascii("http") case 7 => Ascii("https") case 8 => Ascii("200") case 9 => Ascii("204")
    case 10 => Ascii("206") case 11 => Ascii("304") case 12 => Ascii("400") case 13 => Ascii("404")
    case 14 => Ascii("500") case 16 => Ascii("gzip, deflate")
    case _ => []
  }

  lemma ValuesAgree(index: nat)
    requires 1 <= index <= 61
    ensures StaticEntry(index).value == StaticValue(index)
  {
    assert Ascii("") == [];
    hide Ascii;
  }

  /** One octet from 129 to 189 is a whole field: the names are those the client has in its own
      table, and the values are listed above. */
  lemma StaticField(t: Table, index: nat)
    requires 1 <= index <= 61
    ensures ReadBlock(t, [128 + index], true, [])
            == Block(t, Ok([Field(Client.StaticName(index), StaticValue(index))]))
  {
    hide ReadBlock, StaticEntry, StaticValue, Client.StaticName, RepresentationBytes;
    IndexedByte(index);
    ValuesAgree(index);
    Client.NamesAgree(index);
    OneRepresentation(t, Indexed(index), [128 + index]);
    OneField(t, Indexed(index), StaticEntry(index));
  }

  lemma OneField(t: Table, r: Representation, f: Field)
    requires r.Indexed? && Lookup(t, r.index) == Ok(f)
    ensures BlockMeaning(t, [r], true, []) == Block(t, Ok([f]))
  {
    hide Lookup;
    var rs := [r];
    assert rs[1..] == [] && [] + [f] == [f];
    assert BlockMeaning(t, [], false, [f]) == Block(t, Ok([f]));
  }

  /** From 190 on an octet is the newest field that was added, then the one before it, and so on;
      numbers beyond the table are refused, and so is the number 0. */
  lemma AddedField(t: Table, k: nat)
    requires k < 65
    ensures ReadBlock(t, [190 + k], true, [])
            == Block(t, if k < |t.entries| then Ok([t.entries[k]]) else Err(InvalidIndex(62 + k)))
    ensures ReadBlock(t, [128], true, []) == Block(t, Err(InvalidIndex(0)))
  {
    hide ReadBlock, StaticEntry, RepresentationBytes;
    IndexedByte(62 + k);
    IndexedByte(0);
    OneRepresentation(t, Indexed(62 + k), [190 + k]);
    OneRepresentation(t, Indexed(0), [128]);
    if k < |t.entries| {
      OneField(t, Indexed(62 + k), t.entries[k]);
    } else {
      NoField(t, Indexed(62 + k));
    }
    NoField(t, Indexed(0));
  }

  lemma NoField(t: Table, r: Representation)
    requires r.Indexed? && Lookup(t, r.index).Err?
    ensures BlockMeaning(t, [r], true, []) == Block(t, Err(Lookup(t, r.index).error))
  {
  }

  /** A size update to 0 empties the table, one beyond 4096 is refused, and one behind a field
      is refused too. */
  lemma SizeUpdates(t: Table)
    ensures ReadBlock(t, [0x20], true, []) == Block(Table([], 0), Ok([]))
    ensures ReadBlock(t, [0x3f, 0xe2, 0x1f], true, []) == Block(t, Err(InvalidTableSize(4097)))
    ensures ReadBlock(t, [0x82, 0x20], true, []) == Block(t, Err(InvalidDynamicUpdate))
  {
    hide ReadBlock, StaticEntry;
    assert RepresentationBytes(Resize(0)) == [0x20];
    assert Groups(4066) == [226, 31] by {
      assert Groups(31) == [31];
    }
    assert RepresentationBytes(Resize(4097)) == [0x3f, 0xe2, 0x1f];
    IndexedByte(2);
    hide RepresentationBytes;
    OneRepresentation(t, Resize(0), [0x20]);
    OneRepresentation(t, Resize(4097), [0x3f, 0xe2, 0x1f]);
    var late := [Indexed(2), Resize(0)];
    assert late[1..] == [Resize(0)] && [Resize(0)][1..] == [] && BlockBytes([]) == [];
    assert BlockBytes(late[1..]) == [0x20] + [];
    assert BlockBytes(late) == [0x82, 0x20];
    BlockReadsBack(t, late, true, []);
    Emptied(t.entries);
    assert [Resize(0)][0] == Resize(0) && [Resize(4097)][0] == Resize(4097);
  }

  lemma {:induction false} Emptied(entries: seq<Field>)
    ensures Fit(entries, 0) == []
  {
    if entries != [] {
      assert Size(entries) >= EntrySize(entries[|entries| - 1]) > 0;
      Emptied(entries[..|entries| - 1]);
    }
  }

  // ---------- a Huffman-coded request (C.4.1) ----------

  const HOST_CODED: seq<byte> := [0xf1, 0xe3, 0xc2, 0xe5, 0xf2, 0x3a, 0x6b, 0xa0, 0xab, 0x90, 0xf4, 0xff]

  lemma Code119()
    ensures WordBits(CodeOf(119)) == [1, 1, 1, 1, 0, 0, 0]
  {
    assert CodeOf(119) == Word(120, 7);
    hide CodeOf;
    assert MsbBits(1, 1) == [1];
    assert MsbBits(7, 3) == [1, 1, 1];
    assert MsbBits(30, 5) == [1, 1, 1, 1, 0];
  }

  lemma Code46()
    ensures WordBits(CodeOf(46)) == [0, 1, 0, 1, 1, 1]
  {
    assert CodeOf(46) == Word(23, 6);
    hide CodeOf;
    assert MsbBits(1, 2) == [0, 1];
    assert MsbBits(5, 4) == [0, 1, 0, 1];
  }

  lemma Code101()
    ensures WordBits(CodeOf(101)) == [0, 0, 1, 0, 1]
  {
    assert CodeOf(101) == Word(5, 5);
    hide CodeOf;
    assert MsbBits(0, 1) == [0];
    assert MsbBits(1, 3) == [0, 0, 1];
  }

  lemma Code120()
    ensures WordBits(CodeOf(120)) == [1, 1, 1, 1, 0, 0, 1]
  {
    assert CodeOf(120) == Word(121, 7);
    hide CodeOf;
    assert MsbBits(1, 1) == [1];
    assert MsbBits(7, 3) == [1, 1, 1];
    assert MsbBits(30, 5) == [1, 1, 1, 1, 0];
  }

  lemma Code97()
    ensures WordBits(CodeOf(97)) == [0, 0, 0, 1, 1]
  {
    assert CodeOf(97) == Word(3, 5);
    hide CodeOf;
    assert MsbBits(0, 1) == [0];
    assert MsbBits(0, 3) == [0, 0, 0];
  }

  lemma Code109()
    ensures WordBits(CodeOf(109)) == [1, 0, 1, 0, 0, 1]
  {
    assert CodeOf(109) == Word(41, 6);
    hide CodeOf;
    assert MsbBits(2, 2) == [1, 0];
    assert MsbBits(10, 4) == [1, 0, 1, 0];
  }

  lemma Code112()
    ensures WordBits(CodeOf(112)) == [1, 0, 1, 0, 1, 1]
  {
    assert CodeOf(112) == Word(43, 6);
    hide CodeOf;
    assert MsbBits(2, 2) == [1, 0];
    assert MsbBits(10, 4) == [1, 0, 1, 0];
  }

  lemma Code108()
    ensures WordBits(CodeOf(108)) == [1, 0, 1, 0, 0, 0]
  {
    assert CodeOf(108) == Word(40, 6);
    hide CodeOf;
    assert MsbBits(2, 2) == [1, 0];
    assert MsbBits(10, 4) == [1, 0, 1, 0];
  }

  lemma Code99()
    ensures WordBits(CodeOf(99)) == [0, 0, 1, 0, 0]
  {
    assert CodeOf(99) == Word(4, 5);
    hide CodeOf;
    assert MsbBits(0, 1) == [0];
    assert MsbBits(1, 3) == [0, 0, 1];
  }

  lemma Code111()
    ensures WordBits(CodeOf(111)) == [0, 0, 1, 1, 1]
  {
    assert CodeOf(111) == Word(7, 5);
    hide CodeOf;
    assert MsbBits(0, 1) == [0];
    assert MsbBits(1, 3) == [0, 0, 1];
  }

  lemma EncodeTwo(a: byte, s: seq<byte>)
    ensures Huff.Encode([a] + s) == WordBits(CodeOf(a)) + Huff.Encode(s)
  {
    assert ([a] + s)[1..] == s;
  }

  const WWW: seq<bit> := [1, 1, 1, 1, 0, 0, 0, 1, 1, 1, 1, 0, 0, 0, 1, 1, 1, 1, 0, 0, 0, 0, 1, 0, 1, 1, 1]
  const EXAM: seq<bit> := [0, 0, 1, 0, 1, 1, 1, 1, 1, 0, 0, 1, 0, 0, 0, 1, 1, 1, 0, 1, 0, 0, 1]
  const PLE: seq<bit> := [1, 0, 1, 0, 1, 1, 1, 0, 1, 0, 0, 0, 0, 0, 1, 0, 1]
  const COM: seq<bit> := [0, 1, 0, 1, 1, 1, 0, 0, 1, 0, 0, 0, 0, 1, 1, 1, 1, 0, 1, 0, 0, 1]

  lemma {:induction false} EncodeConcat(a: seq<byte>, b: seq<byte>)
    ensures Huff.Encode(a + b) == Huff.Encode(a) + Huff.Encode(b)
    decreases |a|
  {
    if a == [] {
      assert a + b == b;
    } else {
      assert (a + b)[1..] == a[1..] + b;
      EncodeConcat(a[1..], b);
    }
  }

  lemma FourWords(a: byte, b: byte, c: byte, d: byte)
    ensures Huff.Encode([a, b, c, d])
            == WordBits(CodeOf(a)) + (WordBits(CodeOf(b)) + (WordBits(CodeOf(c)) + WordBits(CodeOf(d))))
  {
    hide CodeOf, WordBits;
    ThreeWords(b, c, d);
    EncodeTwo(a, [b, c, d]);
    assert [a] + [b, c, d] == [a, b, c, d];
  }

  lemma ThreeWords(b: byte, c: byte, d: byte)
    ensures Huff.Encode([b, c, d]) == WordBits(CodeOf(b)) + (WordBits(CodeOf(c)) + WordBits(CodeOf(d)))
  {
    hide CodeOf, WordBits;
    assert Huff.Encode([]) == [] && WordBits(CodeOf(d)) + [] == WordBits(CodeOf(d));
    EncodeTwo(d, []);
    assert [d] + [] == [d];
    EncodeTwo(c, [d]);
    assert [c] + [d] == [c, d];
    EncodeTwo(b, [c, d]);
    assert [b] + [c, d] == [b, c, d];
  }

  lemma WwwBits()
    ensures Huff.Encode([119, 119, 119, 46]) == WWW
  {
    hide CodeOf, WordBits, Huff.Encode;
    Code119();
    Code46();
    FourWords(119, 119, 119, 46);
    assert [1, 1, 1, 1, 0, 0, 0] + ([1, 1, 1, 1, 0, 0, 0] + ([1, 1, 1, 1, 0, 0, 0] + [0, 1, 0, 1, 1, 1])) == WWW;
  }

  lemma ExamBits()
    ensures Huff.Encode([101, 120, 97, 109]) == EXAM
  {
    hide CodeOf, WordBits, Huff.Encode;
    Code101();
    Code120();
    Code97();
    Code109();
    FourWords(101, 120, 97, 109);
    assert [0, 0, 1, 0, 1] + ([1, 1, 1, 1, 0, 0, 1] + ([0, 0, 0, 1, 1] + [1, 0, 1, 0, 0, 1])) == EXAM;
  }

  lemma PleBits()
    ensures Huff.Encode([112, 108, 101]) == PLE
  {
    hide CodeOf, WordBits, Huff.Encode;
    Code112();
    Code108();
    Code101();
    ThreeWords(112, 108, 101);
    assert [1, 0, 1, 0, 1, 1] + ([1, 0, 1, 0, 0, 0] + [0, 0, 1, 0, 1]) == PLE;
  }

  lemma ComBits()
    ensures Huff.Encode([46, 99, 111, 109]) == COM
  {
    hide CodeOf, WordBits, Huff.Encode;
    Code46();
    Code99();
    Code111();
    Code109();
    FourWords(46, 99, 111, 109);
    assert [0, 1, 0, 1, 1, 1] + ([0, 0, 1, 0, 0] + ([0, 0, 1, 1, 1] + [1, 0, 1, 0, 0, 1])) == COM;
  }

  lemma InputOfTwo(a: byte, b: byte, rest: seq<byte>)
    ensures Huff.InputBits([a, b] + rest) == Huff.MsbByte(a) + Huff.MsbByte(b) + Huff.InputBits(rest)
  {
    hide Huff.MsbByte;
    var all := [a, b] + rest;
    assert all[1..] == [b] + rest && all[1..][1..] == rest;
  }

  lemma {:induction false} InputConcat(a: seq<byte>, b: seq<byte>)
    ensures Huff.InputBits(a + b) == Huff.InputBits(a) + Huff.InputBits(b)
    decreases |a|
  {
    hide Huff.MsbByte;
    if a == [] {
      assert a + b == b;
    } else {
      assert (a + b)[1..] == a[1..] + b;
      InputConcat(a[1..], b);
    }
  }

  lemma FirstBytes()
    ensures Huff.MsbByte(241) == [1, 1, 1, 1, 0, 0, 0, 1]
    ensures Huff.MsbByte(227) == [1, 1, 1, 0, 0, 0, 1, 1]
    ensures Huff.MsbByte(194) == [1, 1, 0, 0, 0, 0, 1, 0]
    ensures Huff.MsbByte(229) == [1, 1, 1, 0, 0, 1, 0, 1]
  {
  }

  lemma MiddleBytes()
    ensures Huff.MsbByte(242) == [1, 1, 1, 1, 0, 0, 1, 0]
    ensures Huff.MsbByte(58) == [0, 0, 1, 1, 1, 0, 1, 0]
    ensures Huff.MsbByte(107) == [0, 1, 1, 0, 1, 0, 1, 1]
    ensures Huff.MsbByte(160) == [1, 0, 1, 0, 0, 0, 0, 0]
  {
  }

  lemma LastBytes()
    ensures Huff.MsbByte(171) == [1, 0, 1, 0, 1, 0, 1, 1]
    ensures Huff.MsbByte(144) == [1, 0, 0, 1, 0, 0, 0, 0]
    ensures Huff.MsbByte(244) == [1, 1, 1, 1, 0, 1, 0, 0]
    ensures Huff.MsbByte(255) == [1, 1, 1, 1, 1, 1, 1, 1]
  {
  }

  lemma FirstChunk()
    ensures Huff.InputBits([241, 227, 194, 229]) == WWW + EXAM[..5]
  {
    hide Huff.MsbByte, WWW, EXAM;
    FirstBytes();
    FourBytes(241, 227, 194, 229);
    FirstJoint();
  }

  lemma FirstJoint()
    ensures [1, 1, 1, 1, 0, 0, 0, 1] + [1, 1, 1, 0, 0, 0, 1, 1] + ([1, 1, 0, 0, 0, 0, 1, 0] + [1, 1, 1, 0, 0, 1, 0, 1])
            == WWW + EXAM[..5]
  {
  }

  lemma FourBytes(a: byte, b: byte, c: byte, d: byte)
    ensures Huff.InputBits([a, b, c, d]) == Huff.MsbByte(a) + Huff.MsbByte(b) + (Huff.MsbByte(c) + Huff.MsbByte(d))
  {
    hide Huff.MsbByte;
    InputOfTwo(c, d, []);
    InputOfTwo(a, b, [c, d]);
    assert [c, d] + [] == [c, d];
    assert [a, b] + [c, d] == [a, b, c, d];
    assert Huff.InputBits([]) == [];
  }

  lemma MiddleChunk()
    ensures Huff.InputBits([242, 58, 107, 160]) == EXAM[5..] + PLE[..14]
  {
    hide Huff.MsbByte, EXAM, PLE;
    MiddleBytes();
    FourBytes(242, 58, 107, 160);
    MiddleJoint();
  }

  lemma MiddleJoint()
    ensures [1, 1, 1, 1, 0, 0, 1, 0] + [0, 0, 1, 1, 1, 0, 1, 0] + ([0, 1, 1, 0, 1, 0, 1, 1] + [1, 0, 1, 0, 0, 0, 0, 0])
            == EXAM[5..] + PLE[..14]
  {
  }

  lemma LastChunk()
    ensures Huff.InputBits([171, 144, 244, 255]) == PLE[14..] + COM + HOST_TAIL
  {
    hide Huff.MsbByte, PLE, COM, HOST_TAIL;
    LastBytes();
    FourBytes(171, 144, 244, 255);
    LastJoint();
  }

  lemma LastJoint()
    ensures [1, 0, 1, 0, 1, 0, 1, 1] + [1, 0, 0, 1, 0, 0, 0, 0] + ([1, 1, 1, 1, 0, 1, 0, 0] + [1, 1, 1, 1, 1, 1, 1, 1])
            == PLE[14..] + COM + HOST_TAIL
  {
  }

  const HOST_TAIL: seq<bit> := [1, 1, 1, 1, 1, 1, 1]

  /** The coded name is the code of `www.example.com` and seven ones. */
  lemma HostIsCoded()
    ensures Huff.InputBits(HOST_CODED) == WWW + EXAM + PLE + COM + HOST_TAIL
  {
    hide Huff.InputBits;
    assert |EXAM| == 23 && |PLE| == 17;
    hide WWW, EXAM, PLE, COM, HOST_TAIL;
    var a: seq<byte>, b: seq<byte>, c: seq<byte> := [241, 227, 194, 229], [242, 58, 107, 160], [171, 144, 244, 255];
    assert HOST_CODED == a + b + c;
    FirstChunk();
    MiddleChunk();
    LastChunk();
    InputConcat(a + b, c);
    InputConcat(a, b);
    Rejoined(WWW, EXAM, PLE, COM, HOST_TAIL);
  }

  lemma Rejoined(w: seq<bit>, e: seq<bit>, p: seq<bit>, c: seq<bit>, t: seq<bit>)
    requires |e| >= 5 && |p| >= 14
    ensures (w + e[..5]) + (e[5..] + p[..14]) + (p[14..] + c + t) == w + e + p + c + t
  {
    assert e[..5] + e[5..] == e && p[..14] + p[14..] == p;
  }

  lemma HostIsEncoded()
    ensures Huff.HuffmanEncode(Ascii("www.example.com")) == HOST_CODED
  {
    hide WWW, EXAM, PLE, COM, Huff.InputBits, Huff.Encode, Huff.Pack;
    var s := Ascii("www.example.com");
    var w: seq<byte>, e: seq<byte>, p: seq<byte>, c: seq<byte> :=
      [119, 119, 119, 46], [101, 120, 97, 109], [112, 108, 101], [46, 99, 111, 109];
    assert s == w + e + p + c;
    WwwBits();
    ExamBits();
    PleBits();
    ComBits();
    EncodeConcat(w + e + p, c);
    EncodeConcat(w + e, p);
    EncodeConcat(w, e);
    CodeLength();
    var code := Huff.Encode(s);
    assert |code| == 89 && Huff.Ones(7) == HOST_TAIL;
    HostIsCoded();
    Huff.PackedBits(code + Huff.Ones(Huff.Padding(code)));
    Huff.InputBitsInjective(Huff.HuffmanEncode(s), HOST_CODED);
  }

  lemma CodeLength()
    ensures |WWW + EXAM + PLE + COM| == 89
  {
  }

  /** The Huffman-coded request of C.4.1: indexed fields and one that is added to the table. */
  lemma CodedRequest(t: Table)
    ensures var host := Field(Ascii(":authority"), Ascii("www.example.com"));
            ReadBlock(t, [0x82, 0x86, 0x84, 0x41, 0x8c] + HOST_CODED, true, [])
            == Block(Inserted(t, host),
                     Ok([Field(Ascii(":method"), Ascii("GET")), Field(Ascii(":scheme"), Ascii("http")),
                         Field(Ascii(":path"), Ascii("/")), host]))
  {
    hide Ascii, ReadBlock, HOST_CODED, Huff.HuffmanEncode;
    var s := Ascii("www.example.com");
    var r := Literal(Incremental, 1, Plain([]), Coded(s));
    var rs := [Indexed(2), Indexed(6), Indexed(4), r];
    HostIsEncoded();
    HostLength();
    LiteralText(s);
    IndexedByte(2);
    IndexedByte(6);
    IndexedByte(4);
    hide RepresentationBytes;
    assert rs[1..] == [Indexed(6), Indexed(4), r] && rs[1..][1..] == [Indexed(4), r] && rs[1..][1..][1..] == [r];
    assert [r][1..] == [] && BlockBytes([]) == [];
    assert BlockBytes([r]) == [0x41, 0x8c] + HOST_CODED;
    assert BlockBytes([Indexed(4), r]) == [0x84] + BlockBytes([r]);
    assert BlockBytes([Indexed(6), Indexed(4), r]) == [0x86] + BlockBytes([Indexed(4), r]);
    assert BlockBytes(rs) == [0x82] + BlockBytes([Indexed(6), Indexed(4), r]);
    assert BlockBytes(rs) == [0x82, 0x86, 0x84, 0x41, 0x8c] + HOST_CODED;
    BlockReadsBack(t, rs, true, []);
    RequestMeaning(t, r, s);
  }

  lemma HostLength()
    ensures |HOST_CODED| == 12
  {
  }

  lemma LiteralText(s: seq<byte>)
    requires |Huff.HuffmanEncode(s)| == 12
    ensures RepresentationBytes(Literal(Incremental, 1, Plain([]), Coded(s))) == [0x41, 0x8c] + Huff.HuffmanEncode(s)
    ensures Encodable(Literal(Incremental, 1, Plain([]), Coded(s)))
  {
    hide Huff.HuffmanEncode;
  }

  lemma RequestMeaning(t: Table, r: Representation, s: seq<byte>)
    requires r == Literal(Incremental, 1, Plain([]), Coded(s))
    ensures var host := Field(Ascii(":authority"), s);
            BlockMeaning(t, [Indexed(2), Indexed(6), Indexed(4), r], true, [])
            == Block(Inserted(t, host),
                     Ok([Field(Ascii(":method"), Ascii("GET")), Field(Ascii(":scheme"), Ascii("http")),
                         Field(Ascii(":path"), Ascii("/")), host]))
  {
    hide Ascii, Inserted;
    var rs := [Indexed(2), Indexed(6), Indexed(4), r];
    assert rs[1..] == [Indexed(6), Indexed(4), r] && rs[1..][1..] == [Indexed(4), r] && rs[1..][1..][1..] == [r];
    assert [r][1..] == [];
    var a, b, c, d := StaticEntry(2), StaticEntry(6), StaticEntry(4), Field(Ascii(":authority"), s);
    assert [] + [a] == [a] && [a] + [b] == [a, b] && [a, b] + [c] == [a, b, c] && [a, b, c] + [d] == [a, b, c, d];
    var end := Inserted(t, d);
    assert Meaning(t, r, false, []) == Ok(Step(end, Some(d), []));
    assert BlockMeaning(end, [], false, [a, b, c, d]) == Block(end, Ok([a, b, c, d]));
    assert BlockMeaning(t, [r], false, [a, b, c]) == BlockMeaning(end, [], false, [a, b, c, d]);
    assert BlockMeaning(t, [Indexed(4), r], false, [a, b]) == BlockMeaning(t, [r], false, [a, b, c]);
    assert BlockMeaning(t, [Indexed(6), Indexed(4), r], false, [a])
        == BlockMeaning(t, [Indexed(4), r], false, [a, b]);
    assert BlockMeaning(t, rs, true, []) == BlockMeaning(t, [Indexed(6), Indexed(4), r], false, [a]);
  }
}
