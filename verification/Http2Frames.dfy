/** HTTP/2 frames as bytes (RFC 7540 section 4.1;
    src/fastapi_mojo_rs/src/bridge/http2_frames.rs). */
module Http2Frames {
  import opened Wrappers
  import opened Bits

  const FRAME_HEADER: nat := 9

  const DATA: byte := 0
  const HEADERS: byte := 1
  const PRIORITY: byte := 2
  const RST_STREAM: byte := 3
  const SETTINGS: byte := 4
  const PUSH_PROMISE: byte := 5
  const PING: byte := 6
  const GOAWAY: byte := 7
  const WINDOW_UPDATE: byte := 8
  const CONTINUATION: byte := 9

  // Flags, as the weight of their bit.
  const END_STREAM: byte := 1
  const ACK: byte := 1
  const END_HEADERS: byte := 4
  const PADDED: byte := 8
  const PRIORITY_FLAG: byte := 32

  predicate Has(flags: byte, flag: byte)
    requires flag > 0
  {
    flags / flag % 2 == 1
  }

  /** A frame; the reserved bit of the stream identifier is not kept. */
  datatype Frame = Frame(ty: byte, flags: byte, stream: nat, payload: seq<byte>)

  /** Four bytes, most significant first. */
  function Be32(v: nat): (r: seq<byte>)
    requires v < 0x1_0000_0000
    ensures |r| == 4
  {
    [v / 0x100_0000, v / 0x1_0000 % 256, v / 0x100 % 256, v % 256]
  }

  function FromBe32(a: byte, b: byte, c: byte, d: byte): (v: nat)
    ensures v < 0x1_0000_0000
  {
    a * 0x100_0000 + b * 0x1_0000 + c * 0x100 + d
  }

  /** The frame on the wire; the length field keeps 24 bits. */
  function FrameBytes(ty: byte, flags: byte, stream: nat, payload: seq<byte>): (bytes: seq<byte>)
    requires stream < 0x1_0000_0000
    ensures |bytes| == FRAME_HEADER + |payload|
  {
    var len := |payload|;
    [len / 0x1_0000 % 256, len / 0x100 % 256, len % 256, ty, flags] + Be32(stream) + payload
  }

  function SettingsPayload(settings: seq<(nat, nat)>): seq<byte>
    requires forall i :: 0 <= i < |settings| ==> settings[i].0 < 0x1_0000 && settings[i].1 < 0x1_0000_0000
  {
    if settings == [] then []
    else [settings[0].0 / 256, settings[0].0 % 256] + Be32(settings[0].1) + SettingsPayload(settings[1..])
  }

  function WireLength(rx: seq<byte>): nat
    requires |rx| >= FRAME_HEADER
  {
    FromBe32(0, rx[0], rx[1], rx[2])
  }

  /** The frame at the head of the buffer. */
  function FrameAt(rx: seq<byte>): (f: Frame)
    requires |rx| >= FRAME_HEADER && |rx| >= FRAME_HEADER + WireLength(rx)
    ensures f.stream < 0x8000_0000
  {
    Frame(rx[3], rx[4], FromBe32(rx[5], rx[6], rx[7], rx[8]) % 0x8000_0000,
          rx[FRAME_HEADER..FRAME_HEADER + WireLength(rx)])
  }

  lemma Be32RoundTrip(v: nat)
    requires v < 0x1_0000_0000
    ensures var r := Be32(v); FromBe32(r[0], r[1], r[2], r[3]) == v
  {
    var a, b, c := v / 0x100, v / 0x1_0000, v / 0x100_0000;
    assert b == a / 0x100 && c == b / 0x100;
    assert v == 0x100 * a + v % 0x100 && a == 0x100 * b + a % 0x100 && b == 0x100 * c + b % 0x100;
  }

  lemma LengthField(len: nat)
    requires len < 0x100_0000
    ensures FromBe32(0, len / 0x1_0000 % 256, len / 0x100 % 256, len % 256) == len
  {
  }

  /** A frame of fewer than 2^24 bytes on a 31-bit stream is read back from the buffer. */
  lemma FrameReadsBack(ty: byte, flags: byte, stream: nat, payload: seq<byte>, rest: seq<byte>)
    requires stream < 0x8000_0000 && |payload| < 0x100_0000
    ensures var rx := FrameBytes(ty, flags, stream, payload) + rest;
            && WireLength(rx) == |payload|
            && FrameAt(rx) == Frame(ty, flags, stream, payload)
            && rx[FRAME_HEADER + |payload|..] == rest
  {
    hide Be32, FromBe32;
    LengthField(|payload|);
    Be32RoundTrip(stream);
  }

  datatype PaddingResult = Unpadded(data: seq<byte>) | BadPadding

  /** Strips the pad length octet and the padding of a padded frame. */
  function RemovePadding(flags: byte, payload: seq<byte>): PaddingResult {
    if !Has(flags, PADDED) then Unpadded(payload)
    else if payload == [] then BadPadding
    else if |payload| <= payload[0] then BadPadding
    else Unpadded(payload[1..|payload| - payload[0]])
  }

  /** Padding a payload and stripping it again changes nothing. */
  lemma PaddingReadsBack(flags: byte, data: seq<byte>, padding: seq<byte>)
    requires Has(flags, PADDED) && |padding| < 256
    ensures RemovePadding(flags, [|padding|] + data + padding) == Unpadded(data)
  {
  }
}
