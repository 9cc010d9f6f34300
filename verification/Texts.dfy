/** Text helpers: case, white space and searching, on ASCII bytes. */
module Texts {
  import opened Bits

  function Lower(b: byte): byte {
    if 65 <= b <= 90 then b + 32 else b
  }

  function Lowered(s: seq<byte>): (r: seq<byte>)
    ensures |r| == |s|
  {
    seq(|s|, i requires 0 <= i < |s| => Lower(s[i]))
  }

  predicate IsSpace(b: byte) {
    b == 32 || 9 <= b <= 13
  }

  function TrimStart(s: seq<byte>): (r: seq<byte>)
    ensures r == [] || !IsSpace(r[0])
  {
    if s != [] && IsSpace(s[0]) then TrimStart(s[1..]) else s
  }

  function TrimEnd(s: seq<byte>): (r: seq<byte>)
    ensures r <= s && (r == [] || !IsSpace(r[|r| - 1]))
  {
    if s != [] && IsSpace(s[|s| - 1]) then TrimEnd(s[..|s| - 1]) else s
  }

  function Trim(s: seq<byte>): seq<byte> {
    TrimEnd(TrimStart(s))
  }

  /** The length of the leading run without spaces. */
  function WordLength(s: seq<byte>): (n: nat)
    ensures n <= |s| && (n < |s| ==> IsSpace(s[n])) && forall i :: 0 <= i < n ==> !IsSpace(s[i])
  {
    if s == [] || IsSpace(s[0]) then 0 else 1 + WordLength(s[1..])
  }

  /** The position of the first byte equal to b. */
  function Find(s: seq<byte>, b: byte): (at: nat)
    ensures at <= |s| && (at < |s| ==> s[at] == b) && forall i :: 0 <= i < at ==> s[i] != b
  {
    if s == [] || s[0] == b then 0 else 1 + Find(s[1..], b)
  }

  lemma {:induction false} FindAfter(s: seq<byte>, b: byte, tail: seq<byte>)
    requires b !in s && (tail == [] || tail[0] == b)
    ensures Find(s + tail, b) == |s|
  {
    if s == [] {
      assert s + tail == tail;
    } else {
      assert (s + tail)[1..] == s[1..] + tail;
      FindAfter(s[1..], b, tail);
    }
  }

  lemma TrimSpace(value: seq<byte>)
    requires Trim(value) == value
    ensures Trim([32] + value) == value
  {
    assert ([32] + value)[1..] == value;
  }
}
