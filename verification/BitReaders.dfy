/** The bit cursor of the inflater (src/fmtool/src/deflate.rs).  Every operation is
    specified on `Rest()`, the bits not read yet; the position inside the current byte
    is `|Rest()| % 8` bits before the next byte boundary. */
module BitReaders {
  import opened Wrappers
  import opened Bits
  import opened CanonicalCode
  import opened HuffmanTables

  /** The bits from the next byte boundary on. */
  function Aligned(bits: seq<bit>): (rest: seq<bit>)
    ensures |rest| <= |bits|
  {
    bits[|bits| % 8..]
  }

  lemma AlignedIs(bits: seq<bit>, n: nat, k: nat)
    requires |bits| == 8 * n + k && k < 8
    ensures Aligned(bits) == bits[k..]
    ensures k == 0 ==> Aligned(bits) == bits
  {
    assert |bits| % 8 == k;
  }

  /** Two whole bytes, low byte first, are one 16-bit number. */
  lemma TwoBytes(bits: seq<bit>)
    requires |bits| >= 8
    ensures ReadNumber(bits, 16).Some? <==> ReadNumber(bits[8..], 8).Some?
    ensures |bits| >= 16 ==>
              && ReadNumber(bits, 16).value.value == LsbVal(bits[..8]) + 256 * LsbVal(bits[8..][..8])
              && ReadNumber(bits, 16).value.rest == bits[8..][8..]
  {
    if |bits| >= 16 {
      assert bits[..16] == bits[..8] + bits[8..][..8];
      LsbValConcat(bits[..8], bits[8..][..8]);
      DoubledByte(LsbVal(bits[8..][..8]));
    }
  }

  lemma AlignedTail(bits: seq<bit>)
    requires |Aligned(bits)| >= 8
    ensures Aligned(Aligned(bits)[8..]) == Aligned(bits)[8..]
  {
  }

  /** At a byte boundary the next eight bits are the next byte. */
  lemma ByteAtHead(data: seq<byte>, i: nat)
    requires i < |data|
    ensures |BitsOf(data)[8 * i..]| >= 8
    ensures LsbVal(BitsOf(data)[8 * i..][..8]) == data[i]
    ensures BitsOf(data)[8 * i..][8..] == BitsOf(data)[8 * (i + 1)..]
  {
    var rest := BitsOf(data)[8 * i..];
    BitsOfSlice(data, i);
    ByteBitsVal(data[i]);
    assert rest[..8] == BitsOf(data)[8 * i..8 * i + 8];
  }

  lemma ByteIsRead(data: seq<byte>, i: nat)
    requires i < |data|
    ensures ReadNumber(BitsOf(data)[8 * i..], 8) == Some(Number(data[i], BitsOf(data)[8 * (i + 1)..]))
  {
    hide LsbVal, BitsOf;
    ByteAtHead(data, i);
  }

  lemma NoByte(bits: seq<bit>)
    requires bits == []
    ensures ReadNumber(bits, 8) == None
  {
  }

  /** What `decode` knows before reading the bit number `len`: the bits read so far, the
      first code and the table offset of length `len`. */
  ghost predicate Searching(lengths: seq<nat>, all: seq<bit>, len: nat, code: nat, first: nat, index: nat)
    requires AllShort(lengths)
  {
    && 1 <= len <= MAX_BITS + 1 && len - 1 <= |all|
    && code == MsbVal(all[..len - 1])
    && first == First(Counts(lengths), len) && first <= 2 * code
    && index == Offset(Counts(lengths), len)
    && AboveUpTo(Counts(lengths), all, len)
  }

  lemma SearchStart(table: Huffman, lengths: seq<nat>, all: seq<bit>)
    requires TableFor(table, lengths)
    ensures AllShort(lengths) && table.counts == Counts(lengths)
    ensures Searching(lengths, all, 1, 0, 0, 0)
  {
  }

  lemma SlotOfWord(lengths: seq<nat>, s: nat, code: nat, len: nat)
    requires AllShort(lengths) && s < |lengths| && WordOf(lengths, s) == Word(code, len) && 0 < len
    ensures lengths[s] == len
    ensures Slot(lengths, s) == Offset(Counts(lengths), len) + code - First(Counts(lengths), len)
  {
  }

  lemma SearchHit(lengths: seq<nat>, table: Huffman, all: seq<bit>, len: nat, code: nat, first: nat, index: nat)
      returns (at: nat)
    requires TableFor(table, lengths)
    requires Searching(lengths, all, len, code, first, index) && len <= MAX_BITS && len <= |all|
    requires 2 * code + all[len - 1] - first < table.counts[len]
    ensures at == index + (2 * code + all[len - 1]) - first < |table.symbols|
    ensures ReadSymbol(lengths, all) == Some(Symbol(table.symbols[at], all[len..]))
  {
    var v := 2 * code + all[len - 1];
    assert MsbVal(all[..len]) == v by {
      assert all[..len][..len - 1] == all[..len - 1];
    }
    BookIsCanonical(lengths);
    var s := FirstBelowIsAWord(Book(lengths), Counts(lengths), all, len);
    assert WordOf(lengths, s) == Word(v, len) && Heads(Book(lengths), all, s) by {
      assert Book(lengths)[s] == WordOf(lengths, s);
    }
    SymbolInHead(Book(lengths), Counts(lengths), all, s);
    SlotInTable(lengths, s);
    SlotOfWord(lengths, s, v, len);
    at := Slot(lengths, s);
  }

  lemma SearchMiss(lengths: seq<nat>, all: seq<bit>, len: nat, code: nat, first: nat, index: nat)
    requires AllShort(lengths)
    requires Searching(lengths, all, len, code, first, index) && len <= MAX_BITS && len <= |all|
    requires 2 * code + all[len - 1] - first >= Counts(lengths)[len]
    ensures var n := Counts(lengths)[len];
            Searching(lengths, all, len + 1, 2 * code + all[len - 1], 2 * (first + n), index + n)
  {
    assert all[..len][..len - 1] == all[..len - 1];
  }

  lemma SearchFails(lengths: seq<nat>, all: seq<bit>, len: nat, code: nat, first: nat, index: nat)
    requires AllShort(lengths) && Searching(lengths, all, len, code, first, index)
    requires len == MAX_BITS + 1 || len == |all| + 1
    ensures ReadSymbol(lengths, all) == None
  {
    BookIsCanonical(lengths);
    NoneBelowNoMatch(Book(lengths), Counts(lengths), all);
  }

  class BitReader {
    const data: seq<byte>
    var byteAt: nat
    var bitAt: nat

    ghost predicate Valid()
      reads this
    {
      byteAt <= |data| && bitAt < 8 && (byteAt == |data| ==> bitAt == 0)
    }

    ghost function Rest(): (rest: seq<bit>)
      requires Valid()
      reads this
    {
      BitsOf(data)[8 * byteAt + bitAt..]
    }

    constructor (data: seq<byte>)
      ensures Valid() && this.data == data && Rest() == BitsOf(data)
    {
      this.data := data;
      byteAt, bitAt := 0, 0;
    }

    method IsEmpty() returns (empty: bool)
      requires Valid()
      ensures empty <==> Rest() == []
    {
      empty := byteAt >= |data|;
    }

    method Bit() returns (r: Option<bit>)
      requires Valid()
      modifies this
      ensures Valid()
      ensures r.None? <==> old(Rest()) == []
      ensures r.Some? ==> r.value == old(Rest())[0] && Rest() == old(Rest())[1..]
    {
      if byteAt >= |data| {
        return None;
      }
      ghost var at := 8 * byteAt + bitAt;
      assert at / 8 == byteAt && at % 8 == bitAt;
      assert BitsOf(data)[at..] == [BitsOf(data)[at]] + BitsOf(data)[at + 1..];
      r := Some(BitOf(data[byteAt], bitAt));
      bitAt := bitAt + 1;
      if bitAt == 8 {
        bitAt := 0;
        byteAt := byteAt + 1;
      }
    }

    /** Reads an n-bit number, least significant bit first. */
    method Bits(n: nat) returns (r: Option<nat>)
      requires Valid() && n <= 16
      modifies this
      ensures Valid()
      ensures match ReadNumber(old(Rest()), n)
              case None => r == None
              case Some(Number(v, rest)) => r == Some(v) && Rest() == rest
    {
      hide Valid, Rest;
      var v: nat := 0;
      ghost var all := Rest();
      for i := 0 to n
        invariant Valid()
        invariant i <= |all| && Rest() == all[i..] && v == LsbVal(all[..i])
      {
        var b := Bit();
        if b.None? {
          return None;
        }
        assert all[..i + 1] == all[..i] + [b.value];
        LsbValAppend(all[..i], b.value);
        v := v + b.value * Pow2(i);
      }
      return Some(v);
    }

    method Align()
      requires Valid()
      modifies this
      ensures Valid() && bitAt == 0
      ensures Rest() == Aligned(old(Rest()))
    {
      if bitAt != 0 {
        AlignedIs(Rest(), |data| - byteAt - 1, 8 - bitAt);
        bitAt := 0;
        byteAt := byteAt + 1;
      } else {
        AlignedIs(Rest(), |data| - byteAt, 0);
      }
    }

    method Byte() returns (r: Option<byte>)
      requires Valid()
      modifies this
      ensures Valid()
      ensures match ReadNumber(Aligned(old(Rest())), 8)
              case None => r == None
              case Some(Number(b, rest)) => r.Some? && r.value == b && Rest() == rest
    {
      hide Aligned, LsbVal, ReadNumber;
      Align();
      assert Rest() == BitsOf(data)[8 * byteAt..];
      if byteAt >= |data| {
        NoByte(Rest());
        return None;
      }
      ByteIsRead(data, byteAt);
      r := Some(data[byteAt]);
      byteAt := byteAt + 1;
    }

    method UsizeLe16() returns (r: Option<nat>)
      requires Valid()
      modifies this
      ensures Valid()
      ensures match ReadNumber(Aligned(old(Rest())), 16)
              case None => r == None
              case Some(Number(v, rest)) => r == Some(v) && Rest() == rest
    {
      hide Valid, Rest, Aligned, LsbVal;
      ghost var a := Aligned(Rest());
      var lo := Byte();
      if lo.None? {
        return None;
      }
      TwoBytes(a);
      AlignedTail(old(Rest()));
      var hi := Byte();
      if hi.None? {
        return None;
      }
      return Some(lo.value as nat + 256 * hi.value as nat);
    }

    /** Reads one symbol, bit by bit, comparing with the first code of each length. */
    method Decode(table: Huffman, ghost lengths: seq<nat>) returns (r: Option<nat>)
      requires Valid() && TableFor(table, lengths)
      modifies this
      ensures Valid()
      ensures match ReadSymbol(lengths, old(Rest()))
              case None => r == None
              case Some(Symbol(s, rest)) => r == Some(s) && Rest() == rest
    {
      hide *;
      ghost var all := Rest();
      var code: nat, first: nat, index: nat := 0, 0, 0;
      SearchStart(table, lengths, all);
      for len := 1 to MAX_BITS + 1
        invariant Valid()
        invariant AllShort(lengths) && table.counts == Counts(lengths)
        invariant Searching(lengths, all, len, code, first, index)
        invariant len - 1 <= |all| && Rest() == all[len - 1..]
      {
        var b := Bit();
        if b.None? {
          SearchFails(lengths, all, len, code, first, index);
          return None;
        }
        var v: nat := b.value;
        assert len <= |all| && v == all[len - 1] && Rest() == all[len..];
        var n := table.counts[len];
        if 2 * code + v - first < n {
          ghost var at := SearchHit(lengths, table, all, len, code, first, index);
          return Some(table.symbols[index + (2 * code + v) - first]);
        }
        SearchMiss(lengths, all, len, code, first, index);
        code := 2 * code + v;
        index := index + n;
        first := 2 * (first + n);
      }
      SearchFails(lengths, all, MAX_BITS + 1, code, first, index);
      return None;
    }
  }
}
