/** Integers and strings of RFC 7541 section 5 (src/fastapi_mojo_rs/src/bridge/hpack.rs). */
module HpackPrimitives {
  import opened Wrappers
  import opened Bits
  import Huff = HpackHuffman

  datatype HpackError =
    | Truncated
    | IntegerOverflow
    | InvalidIndex(index: nat)
    | InvalidTableSize(size: nat)
    | InvalidHuffman
    | InvalidDynamicUpdate

  const INTEGER_LIMIT: nat := 0x1000000
  const STRING_LIMIT: nat := 0x100000
  const LAST_UNIT: nat := 0x10000000

  /** An integer and the bytes after it. */
  datatype Integer = Integer(value: nat, rest: seq<byte>)

  /** The largest value a prefix of n bits can hold, plus one. */
  function PrefixSize(n: nat): (size: nat)
    requires 4 <= n <= 7
    ensures 16 <= size <= 128 && 128 % size == 0
  {
    match n case 4 => 16 case 5 => 32 case 6 => 64 case _ => 128
  }

  /** A seven-bit group at its place. */
  function Scaled(group: nat, unit: nat): nat {
    group * unit
  }

  /** Continuation bytes: seven bits each, least significant first; `unit` is 2^shift. */
  function ReadContinuation(bytes: seq<byte>, value: nat, unit: nat): (r: Result<Integer, HpackError>)
    ensures r.Ok? ==> r.value.value < INTEGER_LIMIT && |r.value.rest| < |bytes|
    decreases |bytes|
  {
    if bytes == [] then Err(Truncated)
    else
      var b := bytes[0];
      var sum := value + Scaled(b % 128, unit);
      if sum >= INTEGER_LIMIT then Err(IntegerOverflow)
      else if b < 128 then Ok(Integer(sum, bytes[1..]))
      else if 128 * unit > LAST_UNIT then Err(IntegerOverflow)
      else ReadContinuation(bytes[1..], sum, 128 * unit)
  }

  /** Reads an integer whose first byte carries an n-bit prefix. */
  function ReadInteger(bytes: seq<byte>, n: nat): (r: Result<Integer, HpackError>)
    requires bytes != [] && 4 <= n <= 7
    ensures r.Ok? ==> r.value.value < INTEGER_LIMIT && |r.value.rest| < |bytes|
  {
    var size := PrefixSize(n);
    var prefix := bytes[0] % size;
    if prefix < size - 1 then Ok(Integer(prefix, bytes[1..])) else ReadContinuation(bytes[1..], prefix, 1)
  }

  method DecodeInteger(input: seq<byte>, pos: nat, n: nat) returns (r: Result<(nat, nat), HpackError>)
    requires pos < |input| && 4 <= n <= 7
    ensures r.Ok? ==> pos < r.value.1 <= |input|
    ensures ReadInteger(input[pos..], n)
            == if r.Ok? then Ok(Integer(r.value.0, input[r.value.1..])) else Err(r.error)
  {
    hide PrefixSize, Scaled;
    var size := PrefixSize(n);
    var value: nat := input[pos] % size;
    var next := pos + 1;
    if value < size - 1 {
      return Ok((value, next));
    }
    var unit: nat := 1;
    while true
      invariant pos < next <= |input|
      invariant ReadInteger(input[pos..], n) == ReadContinuation(input[next..], value, unit)
      decreases |input| - next
    {
      if next >= |input| {
        return Err(Truncated);
      }
      var b := input[next];
      assert input[next..][1..] == input[next + 1..];
      next := next + 1;
      value := value + Scaled(b % 128, unit);
      if value >= INTEGER_LIMIT {
        return Err(IntegerOverflow);
      }
      if b < 128 {
        return Ok((value, next));
      }
      unit := 128 * unit;
      if unit > LAST_UNIT {
        return Err(IntegerOverflow);
      }
    }
  }

  /** Seven bits at a time, least significant first. */
  function Groups(rem: nat): (bytes: seq<byte>)
    ensures |bytes| > 0
  {
    if rem < 128 then [rem] else [128 + rem % 128] + Groups(rem / 128)
  }

  /** An integer with an n-bit prefix; `first` holds the bits above the prefix. */
  function IntegerBytes(value: nat, n: nat, first: byte): (bytes: seq<byte>)
    requires 4 <= n <= 7 && first % PrefixSize(n) == 0
    ensures |bytes| > 0
    ensures bytes[0] == first + if value < PrefixSize(n) then value else PrefixSize(n) - 1
  {
    FirstRoom(n, first);
    var size := PrefixSize(n);
    if value < size - 1 then [first + value] else [first + (size - 1)] + Groups(value - (size - 1))
  }

  lemma FirstRoom(n: nat, first: byte)
    requires 4 <= n <= 7 && first % PrefixSize(n) == 0
    ensures first + PrefixSize(n) <= 256
  {
  }

  method EncodeInteger(value: nat, n: nat, first: byte) returns (out: seq<byte>)
    requires 4 <= n <= 7 && first % PrefixSize(n) == 0
    ensures out == IntegerBytes(value, n, first)
  {
    hide PrefixSize;
    FirstRoom(n, first);
    var size := PrefixSize(n);
    if value < size - 1 {
      return [first + value];
    }
    out := [first + (size - 1)];
    var rem: nat := value - (size - 1);
    while rem >= 128
      invariant out + Groups(rem) == IntegerBytes(value, n, first)
    {
      NextGroup(out, rem);
      out := out + [128 + rem % 128];
      rem := rem / 128;
    }
    NextGroup(out, rem);
    out := out + [rem];
  }

  lemma NextGroup(out: seq<byte>, rem: nat)
    ensures out + Groups(rem) == if rem < 128 then out + [rem] else out + [128 + rem % 128] + Groups(rem / 128)
  {
    if rem >= 128 {
      assert out + ([128 + rem % 128] + Groups(rem / 128)) == out + [128 + rem % 128] + Groups(rem / 128);
    }
  }

  lemma GroupSum(rem: nat, unit: nat)
    ensures Scaled(rem % 128, unit) + Scaled(rem / 128, 128 * unit) == Scaled(rem, unit)
  {
    var q, r := rem / 128, rem % 128;
    assert rem == 128 * q + r;
    assert (128 * q + r) * unit == 128 * q * unit + r * unit;
  }

  lemma SmallUnit(rem: nat, unit: nat)
    requires rem >= 128 && Scaled(rem, unit) < INTEGER_LIMIT
    ensures 128 * unit <= LAST_UNIT
  {
    assert rem * unit >= 128 * unit;
  }

  lemma {:induction false} GroupsReadBack(rem: nat, rest: seq<byte>, value: nat, unit: nat)
    requires unit > 0 && value + Scaled(rem, unit) < INTEGER_LIMIT
    ensures ReadContinuation(Groups(rem) + rest, value, unit) == Ok(Integer(value + Scaled(rem, unit), rest))
    decreases rem
  {
    hide Scaled;
    GroupSum(rem, unit);
    if rem < 128 {
      assert (Groups(rem) + rest)[1..] == rest;
      SmallGroup(rem, unit);
    } else {
      SmallUnit(rem, unit);
      assert (Groups(rem) + rest)[1..] == Groups(rem / 128) + rest;
      GroupsReadBack(rem / 128, rest, value + Scaled(rem % 128, unit), 128 * unit);
    }
  }

  lemma SmallGroup(rem: nat, unit: nat)
    requires rem < 128
    ensures rem % 128 == rem && Scaled(rem / 128, 128 * unit) == 0
  {
  }

  /** Every integer below 2^24 survives encoding and decoding, for every prefix length. */
  lemma IntegerReadsBack(value: nat, n: nat, first: byte, rest: seq<byte>)
    requires 4 <= n <= 7 && first % PrefixSize(n) == 0 && value < 16777216
    ensures ReadInteger(IntegerBytes(value, n, first) + rest, n) == Ok(Integer(value, rest))
  {
    hide PrefixSize, ReadContinuation, Groups;
    var size := PrefixSize(n);
    var bytes := IntegerBytes(value, n, first) + rest;
    assert Scaled(value, 1) == value && (value >= size - 1 ==> Scaled(value - (size - 1), 1) == value - (size - 1));
    PrefixOf(n, first, if value < size - 1 then value else size - 1);
    if value < size - 1 {
      assert bytes[1..] == rest;
    } else {
      assert bytes[1..] == Groups(value - (size - 1)) + rest;
      GroupsReadBack(value - (size - 1), rest, size - 1, 1);
    }
  }

  lemma PrefixOf(n: nat, first: byte, v: nat)
    requires 4 <= n <= 7 && first % PrefixSize(n) == 0 && v < PrefixSize(n)
    ensures (first + v) % PrefixSize(n) == v
  {
  }

  lemma {:induction false} GroupsAreRefused(rem: nat, rest: seq<byte>, value: nat, unit: nat)
    requires unit > 0 && value + Scaled(rem, unit) >= INTEGER_LIMIT
    ensures ReadContinuation(Groups(rem) + rest, value, unit) == Err(IntegerOverflow)
    decreases rem
  {
    hide Scaled;
    GroupSum(rem, unit);
    if rem < 128 {
      SmallGroup(rem, unit);
    } else {
      assert (Groups(rem) + rest)[1..] == Groups(rem / 128) + rest;
      GroupsAreRefused(rem / 128, rest, value + Scaled(rem % 128, unit), 128 * unit);
    }
  }

  /** And every larger one is refused. */
  lemma IntegerIsRefused(value: nat, n: nat, first: byte, rest: seq<byte>)
    requires 4 <= n <= 7 && first % PrefixSize(n) == 0 && value >= 16777216
    ensures ReadInteger(IntegerBytes(value, n, first) + rest, n) == Err(IntegerOverflow)
  {
    hide PrefixSize, ReadContinuation, Groups;
    var size := PrefixSize(n);
    assert Scaled(value - (size - 1), 1) == value - (size - 1);
    PrefixOf(n, first, size - 1);
    assert (IntegerBytes(value, n, first) + rest)[1..] == Groups(value - (size - 1)) + rest;
    GroupsAreRefused(value - (size - 1), rest, size - 1, 1);
  }

  // ---------- strings ----------

  /** A string and the bytes after it. */
  datatype Text = Text(value: seq<byte>, rest: seq<byte>)

  ghost function ReadString(bytes: seq<byte>): (r: Result<Text, HpackError>)
    ensures r.Ok? ==> |r.value.rest| < |bytes|
  {
    if bytes == [] then Err(Truncated)
    else
      match ReadInteger(bytes, 7)
      case Err(error) => Err(error)
      case Ok(Integer(len, rest)) =>
        if len >= STRING_LIMIT || len > |rest| then Err(Truncated)
        else if bytes[0] >= 128 then
          match Huff.DecodedFrom(Huff.InputBits(rest[..len]), [])
          case None => Err(InvalidHuffman)
          case Some(s) => Ok(Text(s, rest[len..]))
        else Ok(Text(rest[..len], rest[len..]))
  }

  method ReadStringAt(input: seq<byte>, pos: nat) returns (r: Result<(seq<byte>, nat), HpackError>)
    requires pos <= |input|
    ensures r.Ok? ==> pos < r.value.1 <= |input|
    ensures ReadString(input[pos..])
            == if r.Ok? then Ok(Text(r.value.0, input[r.value.1..])) else Err(r.error)
  {
    hide ReadInteger, Huff.DecodedFrom, Huff.InputBits;
    if pos >= |input| {
      return Err(Truncated);
    }
    var huffman := input[pos] >= 128;
    var length := DecodeInteger(input, pos, 7);
    if length.Err? {
      return Err(length.error);
    }
    var (len, next) := length.value;
    if len >= STRING_LIMIT || next + len > |input| {
      return Err(Truncated);
    }
    var raw := input[next..next + len];
    assert input[next..][..len] == raw && input[next..][len..] == input[next + len..];
    if huffman {
      var decoded := Huff.Decode(raw);
      if decoded.Err? {
        return Err(InvalidHuffman);
      }
      return Ok((decoded.value, next + len));
    }
    return Ok((raw, next + len));
  }

  /** A string as it may be written: plain, or Huffman-coded. */
  datatype Written = Plain(text: seq<byte>) | Coded(text: seq<byte>)

  function Payload(w: Written): seq<byte> {
    match w case Plain(s) => s case Coded(s) => Huff.HuffmanEncode(s)
  }

  function StringBytes(w: Written): (bytes: seq<byte>)
    ensures |bytes| > 0
  {
    IntegerBytes(|Payload(w)|, 7, if w.Coded? then 128 else 0) + Payload(w)
  }

  method EncodeString(value: seq<byte>) returns (out: seq<byte>)
    ensures out == StringBytes(Plain(value))
  {
    out := EncodeInteger(|value|, 7, 0);
    out := out + value;
  }

  /** Every string shorter than 1 MiB on the wire survives, plain or Huffman-coded. */
  lemma StringReadsBack(w: Written, rest: seq<byte>)
    requires |Payload(w)| < 1048576
    ensures ReadString(StringBytes(w) + rest) == Ok(Text(w.text, rest))
  {
    hide ReadInteger, Huff.DecodedFrom, Huff.InputBits, Huff.HuffmanEncode;
    var first: byte := if w.Coded? then 128 else 0;
    var head := IntegerBytes(|Payload(w)|, 7, first);
    assert StringBytes(w) + rest == head + (Payload(w) + rest);
    IntegerReadsBack(|Payload(w)|, 7, first, Payload(w) + rest);
    assert (Payload(w) + rest)[..|Payload(w)|] == Payload(w) && (Payload(w) + rest)[|Payload(w)|..] == rest;
    if w.Coded? {
      Huff.DecodeEncode(w.text);
    }
  }

  /** And none that is longer. */
  lemma StringIsRefused(w: Written, rest: seq<byte>)
    requires |Payload(w)| >= 1048576
    ensures ReadString(StringBytes(w) + rest).Err?
  {
    hide ReadInteger, Huff.DecodedFrom, Huff.InputBits, Huff.HuffmanEncode;
    var first: byte := if w.Coded? then 128 else 0;
    var head := IntegerBytes(|Payload(w)|, 7, first);
    assert StringBytes(w) + rest == head + (Payload(w) + rest);
    if |Payload(w)| < INTEGER_LIMIT {
      IntegerReadsBack(|Payload(w)|, 7, first, Payload(w) + rest);
    } else {
      IntegerIsRefused(|Payload(w)|, 7, first, Payload(w) + rest);
    }
  }
}
