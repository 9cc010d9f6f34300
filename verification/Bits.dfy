/** Bytes, bits and the two bit orders of RFC 1951: least significant first for
    plain numbers, most significant first for Huffman codes. */
module Bits {
  import opened Wrappers

  type byte = b: int | 0 <= b < 256
  type bit = b: int | 0 <= b < 2

  function Pow2(n: nat): (p: nat)
    ensures p >= 1
  {
    if n == 0 then 1 else 2 * Pow2(n - 1)
  }

  lemma {:induction false} Pow2Add(m: nat, n: nat)
    ensures Pow2(m + n) == Pow2(m) * Pow2(n)
  {
    if m == 0 {
    } else {
      Pow2Add(m - 1, n);
      assert Pow2(m + n) == 2 * (Pow2(m - 1) * Pow2(n));
    }
  }

  lemma Pow2Small()
    ensures Pow2(0) == 1 && Pow2(1) == 2 && Pow2(2) == 4 && Pow2(3) == 8 && Pow2(4) == 16 && Pow2(5) == 32
    ensures Pow2(6) == 64 && Pow2(7) == 128 && Pow2(8) == 256 && Pow2(9) == 512 && Pow2(10) == 1024
    ensures Pow2(11) == 2048 && Pow2(12) == 4096 && Pow2(13) == 8192
  {
    assert Pow2(3) == 8;
    assert Pow2(6) == 64;
    assert Pow2(9) == 512;
    assert Pow2(12) == 4096;
  }

  lemma Assoc(a: seq<bit>, b: seq<bit>, c: seq<bit>)
    ensures (a + b) + c == a + (b + c)
  {
  }

  // ---------- the bits of one byte, least significant first ----------

  function BitOf(b: byte, i: nat): bit
    requires i < 8
  {
    match i
    case 0 => b % 2
    case 1 => b / 2 % 2
    case 2 => b / 4 % 2
    case 3 => b / 8 % 2
    case 4 => b / 16 % 2
    case 5 => b / 32 % 2
    case 6 => b / 64 % 2
    case _ => b / 128 % 2
  }

  function ByteBits(b: byte): (bits: seq<bit>)
    ensures |bits| == 8
  {
    [BitOf(b, 0), BitOf(b, 1), BitOf(b, 2), BitOf(b, 3), BitOf(b, 4), BitOf(b, 5), BitOf(b, 6), BitOf(b, 7)]
  }

  /** The bit stream of a byte string, in the order DEFLATE reads it. */
  function BitsOf(data: seq<byte>): (bits: seq<bit>)
    ensures |bits| == 8 * |data|
  {
    seq(8 * |data|, k requires 0 <= k < 8 * |data| => BitOf(data[k / 8], k % 8))
  }

  lemma BitsOfSlice(data: seq<byte>, i: nat)
    requires i < |data|
    ensures BitsOf(data)[8 * i..8 * i + 8] == ByteBits(data[i])
  {
    forall j | 0 <= j < 8
      ensures BitsOf(data)[8 * i..8 * i + 8][j] == ByteBits(data[i])[j]
    {
      assert (8 * i + j) / 8 == i && (8 * i + j) % 8 == j;
    }
  }

  lemma BitsOfConcat(a: seq<byte>, b: seq<byte>)
    ensures BitsOf(a + b) == BitsOf(a) + BitsOf(b)
  {
    forall k | 0 <= k < 8 * |a + b|
      ensures BitsOf(a + b)[k] == (BitsOf(a) + BitsOf(b))[k]
    {
      if k >= 8 * |a| {
        assert (k - 8 * |a|) / 8 == k / 8 - |a| && (k - 8 * |a|) % 8 == k % 8;
      }
    }
  }

  // ---------- numbers written least significant bit first ----------

  function LsbVal(bits: seq<bit>): (v: nat)
    ensures v < Pow2(|bits|)
  {
    if bits == [] then 0 else bits[0] + 2 * LsbVal(bits[1..])
  }

  function LsbBits(v: nat, n: nat): (bits: seq<bit>)
    ensures |bits| == n
  {
    if n == 0 then [] else [v % 2] + LsbBits(v / 2, n - 1)
  }

  lemma {:induction false} LsbRoundTrip(v: nat, n: nat)
    requires v < Pow2(n)
    ensures LsbVal(LsbBits(v, n)) == v
  {
    if n > 0 {
      LsbRoundTrip(v / 2, n - 1);
      assert LsbBits(v, n)[1..] == LsbBits(v / 2, n - 1);
    }
  }

  lemma {:induction false} LsbBitsOfVal(bits: seq<bit>)
    ensures LsbBits(LsbVal(bits), |bits|) == bits
  {
    if bits != [] {
      LsbBitsOfVal(bits[1..]);
      assert LsbVal(bits) / 2 == LsbVal(bits[1..]);
    }
  }

  lemma {:induction false} LsbValAppend(bits: seq<bit>, b: bit)
    ensures LsbVal(bits + [b]) == LsbVal(bits) + b * Pow2(|bits|)
  {
    if bits == [] {
      assert [b][1..] == [];
    } else {
      LsbValAppend(bits[1..], b);
      assert (bits + [b])[1..] == bits[1..] + [b];
    }
  }

  /** v times 2^n, by doubling. */
  function Doubled(v: nat, n: nat): nat {
    if n == 0 then v else 2 * Doubled(v, n - 1)
  }

  lemma DoubledByte(v: nat)
    ensures Doubled(v, 8) == 256 * v
  {
    assert Doubled(v, 1) == 2 * v;
    assert Doubled(v, 2) == 4 * v;
    assert Doubled(v, 4) == 16 * v;
    assert Doubled(v, 6) == 64 * v;
  }

  lemma {:induction false} LsbValConcat(a: seq<bit>, b: seq<bit>)
    ensures LsbVal(a + b) == LsbVal(a) + Doubled(LsbVal(b), |a|)
  {
    if a == [] {
      assert a + b == b;
    } else {
      LsbValConcat(a[1..], b);
      assert (a + b)[1..] == a[1..] + b;
    }
  }

  /** A number and the bits after it. */
  datatype Number = Number(value: nat, rest: seq<bit>)

  /** Reads an n-bit number, least significant bit first. */
  function ReadNumber(bits: seq<bit>, n: nat): (r: Option<Number>)
    ensures r.Some? ==> |r.value.rest| == |bits| - n && r.value.value < Pow2(n)
  {
    if |bits| < n then None else Some(Number(LsbVal(bits[..n]), bits[n..]))
  }

  /** Reading and writing n-bit numbers are inverse. */
  lemma NumberRoundTrip(bits: seq<bit>, n: nat, v: nat, rest: seq<bit>)
    ensures ReadNumber(bits, n) == Some(Number(v, rest)) <==> v < Pow2(n) && bits == LsbBits(v, n) + rest
  {
    if v < Pow2(n) && bits == LsbBits(v, n) + rest {
      LsbRoundTrip(v, n);
      assert bits[..n] == LsbBits(v, n) && bits[n..] == rest;
    }
    if ReadNumber(bits, n) == Some(Number(v, rest)) {
      LsbBitsOfVal(bits[..n]);
      assert bits == bits[..n] + rest;
    }
  }

  lemma ByteBitsVal(b: byte)
    ensures ByteBits(b) == LsbBits(b, 8)
    ensures LsbVal(ByteBits(b)) == b
  {
    var t := LsbBits(b, 8);
    LsbBitsIndex(b);
    assert Pow2(8) == 256 by { Pow2Add(4, 4); }
    LsbRoundTrip(b, 8);
  }

  lemma LsbBitsIndex(b: byte)
    ensures LsbBits(b, 8) == ByteBits(b)
  {
    var b1, b2, b3, b4, b5, b6, b7 := b / 2, b / 4, b / 8, b / 16, b / 32, b / 64, b / 128;
    assert b1 / 2 == b2 && b2 / 2 == b3 && b3 / 2 == b4 && b4 / 2 == b5 && b5 / 2 == b6 && b6 / 2 == b7;
    assert LsbBits(b7, 1) == [b7 % 2] + LsbBits(b7 / 2, 0);
    assert LsbBits(b6, 2) == [b6 % 2] + LsbBits(b7, 1);
    assert LsbBits(b5, 3) == [b5 % 2] + LsbBits(b6, 2);
    assert LsbBits(b4, 4) == [b4 % 2] + LsbBits(b5, 3);
    assert LsbBits(b3, 5) == [b3 % 2] + LsbBits(b4, 4);
    assert LsbBits(b2, 6) == [b2 % 2] + LsbBits(b3, 5);
    assert LsbBits(b1, 7) == [b1 % 2] + LsbBits(b2, 6);
    assert LsbBits(b, 8) == [b % 2] + LsbBits(b1, 7);
  }

  // ---------- numbers written most significant bit first ----------

  function MsbVal(bits: seq<bit>): (v: nat)
    ensures v < Pow2(|bits|)
  {
    if bits == [] then 0 else 2 * MsbVal(bits[..|bits| - 1]) + bits[|bits| - 1]
  }

  function MsbBits(v: nat, n: nat): (bits: seq<bit>)
    ensures |bits| == n
  {
    if n == 0 then [] else MsbBits(v / 2, n - 1) + [v % 2]
  }

  lemma {:induction false} MsbRoundTrip(v: nat, n: nat)
    requires v < Pow2(n)
    ensures MsbVal(MsbBits(v, n)) == v
  {
    if n > 0 {
      MsbRoundTrip(v / 2, n - 1);
      assert MsbBits(v, n)[..n - 1] == MsbBits(v / 2, n - 1);
    }
  }

  lemma {:induction false} MsbBitsOfVal(bits: seq<bit>)
    ensures MsbBits(MsbVal(bits), |bits|) == bits
  {
    if bits != [] {
      MsbBitsOfVal(bits[..|bits| - 1]);
      assert MsbVal(bits) / 2 == MsbVal(bits[..|bits| - 1]);
    }
  }
}
