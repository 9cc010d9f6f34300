/** Base64 (RFC 4648 section 4; src/fastapi_mojo_rs/src/bridge/multipart.rs). */
module Base64 {
  import opened Wrappers
  import opened Bits
  import opened AsciiText

  const PAD: byte := 61

  /** The character for a six-bit value. */
  function Letter(v: nat): (c: byte)
    requires v < 64
    ensures c < 128 && c != PAD && Value(c) == Some(v)
  {
    if v < 26 then 65 + v
    else if v < 52 then 97 + (v - 26)
    else if v < 62 then 48 + (v - 52)
    else if v == 62 then 43 else 47
  }

  function Value(c: byte): (v: Option<nat>)
    ensures v.Some? ==> v.value < 64
  {
    if 65 <= c <= 90 then Some(c - 65)
    else if 97 <= c <= 122 then Some(c - 97 + 26)
    else if 48 <= c <= 57 then Some(c - 48 + 52)
    else if c == 43 then Some(62)
    else if c == 47 then Some(63)
    else None
  }

  /** Three bytes as four characters, the rest padded. */
  function Encode(input: seq<byte>): seq<byte> {
    if input == [] then []
    else if |input| == 1 then Quad(input[0], 0, 0)[..2] + [PAD, PAD]
    else if |input| == 2 then Quad(input[0], input[1], 0)[..3] + [PAD]
    else Quad(input[0], input[1], input[2]) + Encode(input[3..])
  }

  function Quad(a: byte, b: byte, c: byte): (r: seq<byte>)
    ensures |r| == 4
  {
    [Letter(a / 4), Letter(a % 4 * 16 + b / 16), Letter(b % 16 * 4 + c / 64), Letter(c % 64)]
  }

  /** Powers of two for the number of bits still pending. */
  function Weight(bits: nat): (w: nat)
    requires bits in {0, 2, 4, 6}
    ensures w > 0
  {
    match bits case 0 => 1 case 2 => 4 case 4 => 16 case _ => 64
  }

  function Put(b: byte, rest: Option<seq<byte>>): Option<seq<byte>> {
    match rest case None => None case Some(out) => Some([b] + out)
  }

  /** Six bits at a time, a byte whenever there are eight; `pending` holds the bits left. */
  function Decode(s: seq<byte>, pending: nat, bits: nat): Option<seq<byte>>
    requires bits in {0, 2, 4, 6} && pending < Weight(bits)
    decreases |s|
  {
    if s == [] || s[0] == PAD then Some([])
    else
      match Value(s[0])
      case None => None
      case Some(v) =>
        var t := pending * 64 + v;
        if bits == 0 then Decode(s[1..], t, 6)
        else
          var w := Weight(bits - 2);
          ByteFits(t, bits);
          Put(t / w, Decode(s[1..], t % w, bits - 2))
  }

  lemma ByteFits(t: nat, bits: nat)
    requires bits in {2, 4, 6} && t < Weight(bits) * 64
    ensures t / Weight(bits - 2) < 256
  {
  }

  lemma QuadDecodes(a: byte, b: byte, c: byte, rest: seq<byte>)
    ensures Decode(Quad(a, b, c) + rest, 0, 0) == Put(a, Put(b, Put(c, Decode(rest, 0, 0))))
  {
    hide Letter, Value;
    var q := Quad(a, b, c) + rest;
    var v0, v1, v2, v3 := a / 4, a % 4 * 16 + b / 16, b % 16 * 4 + c / 64, c % 64;
    assert q[1..][1..][1..][1..] == rest;
    assert Decode(q, 0, 0) == Decode(q[1..], v0, 6);
    assert (v0 * 64 + v1) / 16 == a && (v0 * 64 + v1) % 16 == b / 16;
    assert (b / 16 * 64 + v2) / 4 == b && (b / 16 * 64 + v2) % 4 == c / 64;
    assert c / 64 * 64 + v3 == c;
    assert Decode(q[1..], v0, 6) == Put(a, Decode(q[1..][1..], b / 16, 4));
    assert Decode(q[1..][1..], b / 16, 4) == Put(b, Decode(q[1..][1..][1..], c / 64, 2));
    assert Decode(q[1..][1..][1..], c / 64, 2) == Put(c, Decode(rest, 0, 0));
  }

  /** Decoding what was encoded gives back every byte. */
  lemma {:induction false} EncodeReadsBack(input: seq<byte>)
    ensures Decode(Encode(input), 0, 0) == Some(input)
  {
    hide Letter, Value, Quad;
    if |input| == 1 {
      OneDecodes(input[0]);
      assert input == [input[0]];
    } else if |input| == 2 {
      TwoDecode(input[0], input[1]);
      assert input == [input[0], input[1]];
    } else if |input| > 2 {
      QuadDecodes(input[0], input[1], input[2], Encode(input[3..]));
      EncodeReadsBack(input[3..]);
      assert [input[0]] + ([input[1]] + ([input[2]] + input[3..])) == input;
    }
  }

  lemma OneDecodes(a: byte)
    ensures Decode(Encode([a]), 0, 0) == Some([a])
  {
    hide Letter, Value;
    var s := Encode([a]);
    var v0, v1 := a / 4, a % 4 * 16;
    assert s == [Letter(v0), Letter(v1), PAD, PAD];
    DecodeTwo(v0, v1, [PAD, PAD]);
    Split1(a);
    assert Decode([PAD, PAD], 0, 4) == Some([]) && [a] + [] == [a];
  }

  lemma TwoDecode(a: byte, b: byte)
    ensures Decode(Encode([a, b]), 0, 0) == Some([a, b])
  {
    hide Letter, Value;
    var s := Encode([a, b]);
    var v0, v1, v2 := a / 4, a % 4 * 16 + b / 16, b % 16 * 4;
    assert s == [Letter(v0), Letter(v1)] + [Letter(v2), PAD];
    DecodeTwo(v0, v1, [Letter(v2), PAD]);
    Split2(a, b);
    assert [Letter(v2), PAD][1..] == [PAD];
    assert Decode([Letter(v2), PAD], b / 16, 4) == Put(b, Decode([PAD], 0, 2));
    assert Decode([PAD], 0, 2) == Some([]) && [b] + [] == [b] && [a] + [b] == [a, b];
  }

  /** The first two letters give a byte and leave four bits. */
  lemma DecodeTwo(v0: nat, v1: nat, rest: seq<byte>)
    requires v0 < 64 && v1 < 64
    ensures Decode([Letter(v0), Letter(v1)] + rest, 0, 0)
            == Put((v0 * 64 + v1) / 16, Decode(rest, (v0 * 64 + v1) % 16, 4))
  {
    hide Letter, Value;
    var s := [Letter(v0), Letter(v1)] + rest;
    assert s[1..][1..] == rest;
    assert Decode(s, 0, 0) == Decode(s[1..], v0, 6);
    ByteFits(v0 * 64 + v1, 6);
  }

  lemma Split1(a: byte)
    ensures (a / 4 * 64 + a % 4 * 16) / 16 == a && (a / 4 * 64 + a % 4 * 16) % 16 == 0
  {
  }

  lemma Split2(a: byte, b: byte)
    ensures (a / 4 * 64 + (a % 4 * 16 + b / 16)) / 16 == a && (a / 4 * 64 + (a % 4 * 16 + b / 16)) % 16 == b / 16
    ensures (b / 16 * 64 + b % 16 * 4) / 4 == b && (b / 16 * 64 + b % 16 * 4) % 4 == 0
  {
  }

  // ---------- division ----------

  /** Quotient and remainder are unique. */
  lemma Euclid(x: int, d: int, q: int, r: int)
    requires d > 0 && x == d * q + r && 0 <= r < d
    ensures x / d == q && x % d == r
  {
    var k := q - x / d;
    assert d * k == x % d - r by {
      assert d * (q - x / d) == d * q - d * (x / d);
    }
    Multiples(d, k);
  }

  lemma Multiples(d: int, k: int)
    requires d > 0
    ensures (k >= 1 ==> d * k >= d) && (k <= -1 ==> d * k <= -d)
  {
  }

  /** A remainder by a multiple of d keeps the remainder by d. */
  lemma Wrap(x: int, d: int, n: int)
    requires d > 0 && n > 0
    ensures d * n > 0 && x % (d * n) % d == x % d
  {
    var q, y := x / (d * n), x % (d * n);
    assert x == d * (n * q) + y;
    var k, r := y / d, y % d;
    assert d * (n * q) + d * k == d * (n * q + k);
    Euclid(x, d, n * q + k, r);
  }

  /** Three bytes as one number. */
  function Triple(a: nat, b: nat, c: nat): nat {
    a * 0x1_0000 + b * 0x100 + c
  }

  /** The digits of a number written in base 64. */
  lemma SixBitDigits(x: nat, y: nat, z: nat, w: nat)
    requires x < 64 && y < 64 && z < 64 && w < 64
    ensures var t := ((x * 64 + y) * 64 + z) * 64 + w;
            t / 0x4_0000 % 64 == x && t / 0x1000 % 64 == y && t / 64 % 64 == z && t % 64 == w
  {
    var t := ((x * 64 + y) * 64 + z) * 64 + w;
    Euclid(t, 64, (x * 64 + y) * 64 + z, w);
    Euclid(t, 0x1000, x * 64 + y, z * 64 + w);
    Euclid(t, 0x4_0000, x, (y * 64 + z) * 64 + w);
    Euclid((x * 64 + y) * 64 + z, 64, x * 64 + y, z);
    Euclid(x * 64 + y, 64, x, y);
  }

  lemma SplitTriple(a: byte, b: byte, c: byte)
    ensures Triple(a, b, c) == ((a / 4 * 64 + (a % 4 * 16 + b / 16)) * 64 + (b % 16 * 4 + c / 64)) * 64 + c % 64
  {
  }

  /** The four characters of a 24-bit number. */
  function Quartet(t: nat): (r: seq<byte>)
    ensures |r| == 4
  {
    [Letter(t / 0x4_0000 % 64), Letter(t / 0x1000 % 64), Letter(t / 64 % 64), Letter(t % 64)]
  }

  lemma QuartetOf(x: nat, y: nat, z: nat, w: nat)
    requires x < 64 && y < 64 && z < 64 && w < 64
    ensures Quartet(((x * 64 + y) * 64 + z) * 64 + w) == [Letter(x), Letter(y), Letter(z), Letter(w)]
  {
    hide Letter;
    SixBitDigits(x, y, z, w);
  }

  lemma QuartetIsQuad(a: byte, b: byte, c: byte)
    ensures Quartet(Triple(a, b, c)) == Quad(a, b, c)
  {
    hide Letter, Triple, Quartet;
    SplitTriple(a, b, c);
    QuartetOf(a / 4, a % 4 * 16 + b / 16, b % 16 * 4 + c / 64, c % 64);
  }

  method EncodeBytes(input: seq<byte>) returns (out: seq<byte>)
    ensures out == Encode(input)
  {
    hide Quartet, Quad, Triple;
    out := [];
    var i := 0;
    assert input[0..] == input;
    while i + 3 <= |input|
      invariant i <= |input| && Encode(input) == out + Encode(input[i..])
    {
      ghost var rest := input[i..];
      assert rest[3..] == input[i + 3..];
      QuartetIsQuad(input[i], input[i + 1], input[i + 2]);
      var quad := Quartet(Triple(input[i], input[i + 1], input[i + 2]));
      assert Encode(rest) == quad + Encode(rest[3..]);
      assert out + (quad + Encode(rest[3..])) == out + quad + Encode(rest[3..]);
      out := out + quad;
      i := i + 3;
    }
    var rem := |input| - i;
    if rem == 1 {
      QuartetIsQuad(input[i], 0, 0);
      assert input[i..] == [input[i]];
      out := out + Quartet(Triple(input[i], 0, 0))[..2] + [PAD, PAD];
    } else if rem == 2 {
      QuartetIsQuad(input[i], input[i + 1], 0);
      assert input[i..] == [input[i], input[i + 1]];
      out := out + Quartet(Triple(input[i], input[i + 1], 0))[..3] + [PAD];
    }
  }

  const WORD: nat := 0x1_0000_0000

  /** The 32-bit accumulator keeps more than is pending; only its low bits matter. */
  method DecodeBytes(s: seq<byte>) returns (r: Option<seq<byte>>)
    ensures r == Decode(s, 0, 0)
  {
    hide Value;
    var out: seq<byte> := [];
    var acc: nat := 0;
    var bits: nat := 0;
    ghost var pending := 0;
    assert s[0..] == s;
    WholeIsPrefixed(Decode(s, 0, 0));
    for i := 0 to |s|
      invariant bits in {0, 2, 4, 6} && pending < Weight(bits) && pending == acc % Weight(bits)
      invariant Decode(s, 0, 0) == Prefixed(out, Decode(s[i..], pending, bits))
    {
      ghost var rest := s[i..];
      assert rest[1..] == s[i + 1..];
      var c := s[i];
      if c == PAD {
        assert Decode(rest, pending, bits) == Some([]) && out + [] == out;
        return Some(out);
      }
      if Value(c).None? {
        return None;
      }
      var v := Value(c).value;
      ghost var t := pending * 64 + v;
      LowBits(acc, v, bits);
      acc := (acc * 64 + v) % WORD;
      bits := bits + 6;
      if bits >= 8 {
        bits := bits - 8;
        pending := t % Weight(bits);
        PrefixedPut(out, acc / Weight(bits) % 256, Decode(s[i + 1..], pending, bits));
        out := out + [acc / Weight(bits) % 256];
      } else {
        pending := t;
      }
    }
    assert out + [] == out;
    return Some(out);
  }

  function Prefixed(out: seq<byte>, rest: Option<seq<byte>>): Option<seq<byte>> {
    match rest case None => None case Some(tail) => Some(out + tail)
  }

  lemma WholeIsPrefixed(rest: Option<seq<byte>>)
    ensures Prefixed([], rest) == rest
  {
    if rest.Some? {
      assert [] + rest.value == rest.value;
    }
  }

  lemma PrefixedPut(out: seq<byte>, b: byte, rest: Option<seq<byte>>)
    ensures Prefixed(out, Put(b, rest)) == Prefixed(out + [b], rest)
  {
    if rest.Some? {
      assert out + ([b] + rest.value) == out + [b] + rest.value;
    }
  }

  lemma LowBits(acc: nat, v: nat, bits: nat)
    requires bits in {0, 2, 4, 6} && v < 64
    ensures var t, a := acc % Weight(bits) * 64 + v, (acc * 64 + v) % WORD;
            if bits == 0 then a % 64 == t
            else a / Weight(bits - 2) % 256 == t / Weight(bits - 2) && a % Weight(bits - 2) == t % Weight(bits - 2)
  {
    var w := Weight(bits);
    var t, x := acc % w * 64 + v, acc * 64 + v;
    assert x == 64 * w * (acc / w) + t by {
      assert acc == w * (acc / w) + acc % w;
    }
    Euclid(x, 64 * w, acc / w, t);
    Wrap(x, 64 * w, WORD / (64 * w));
    var a := x % WORD;
    assert a % (64 * w) == t;
    if bits > 0 {
      ByteAbove(a, Weight(bits - 2), t);
    }
  }

  lemma ByteAbove(a: nat, w: nat, t: nat)
    requires w > 0 && a % (256 * w) == t
    ensures a / w % 256 == t / w && a % w == t % w
  {
    var q := a / (256 * w);
    assert t / w < 256 by {
      assert w * (t / w) <= t < 256 * w;
    }
    assert 256 * w * q == w * (256 * q);
    assert w * (256 * q) + w * (t / w) == w * (256 * q + t / w);
    Euclid(a, w, 256 * q + t / w, t % w);
    Euclid(256 * q + t / w, 256, q, t / w);
  }

  lemma FooQuad()
    ensures Quad(102, 111, 111) == Ascii("Zm9v")
  {
  }

  lemma BarQuad()
    ensures Quad(98, 97, 114) == Ascii("YmFy")
    ensures Quad(98, 97, 0)[..3] == Ascii("YmE") && Quad(98, 0, 0)[..2] == Ascii("Yg")
  {
  }

  lemma Foobar()
    ensures Ascii("foobar") == [102, 111, 111] + [98, 97, 114]
    ensures Ascii("fooba") == [102, 111, 111] + [98, 97] && Ascii("foob") == [102, 111, 111] + [98]
  {
  }

  lemma ShortEncoded()
    ensures Encode([98]) == Quad(98, 0, 0)[..2] + [61, 61] && Encode([98, 97]) == Quad(98, 97, 0)[..3] + [61]
    ensures Encode([98, 97, 114]) == Quad(98, 97, 114)
  {
    hide Quad;
    FirstTriple(98, 97, 114, []);
    assert [98, 97, 114] + [] == [98, 97, 114] && Encode([]) == [];
  }

  /** Three of the examples of section 10 of RFC 4648: no padding, one sign and two. */
  lemma KnownAnswers()
    ensures Encode(Ascii("foobar")) == Ascii("Zm9v") + Ascii("YmFy")
    ensures Encode(Ascii("fooba")) == Ascii("Zm9v") + (Ascii("YmE") + [61])
    ensures Encode(Ascii("foob")) == Ascii("Zm9v") + (Ascii("Yg") + [61, 61])
  {
    hide Ascii, Quad, Encode;
    Foobar();
    FooQuad();
    BarQuad();
    ShortEncoded();
    FirstTriple(102, 111, 111, [98, 97, 114]);
    FirstTriple(102, 111, 111, [98, 97]);
    FirstTriple(102, 111, 111, [98]);
  }

  lemma FirstTriple(a: byte, b: byte, c: byte, rest: seq<byte>)
    ensures Encode([a, b, c] + rest) == Quad(a, b, c) + Encode(rest)
  {
    hide Quad;
    assert ([a, b, c] + rest)[3..] == rest;
  }

  /** The alphabet of section 4: capitals, small letters, digits, plus and slash. */
  lemma AlphabetIs(v: nat)
    requires v < 64
    ensures v < 26 ==> Letter(v) == 'A' as int + v
    ensures 26 <= v < 52 ==> Letter(v) == 'a' as int + (v - 26)
    ensures 52 <= v < 62 ==> Letter(v) == '0' as int + (v - 52)
    ensures Letter(62) == '+' as int && Letter(63) == '/' as int
  {
  }
}
