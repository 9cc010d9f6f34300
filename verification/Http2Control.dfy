/** What the frames do that are not requests (RFC 7540 sections 6.3 to 6.9;
    src/fastapi_mojo_rs/src/bridge/http2.rs), said of their numbers and octets. */
module Http2Control {
  import opened Wrappers
  import opened Bits
  import opened Http2Frames
  import opened Http2Requests
  import opened Http2Spec
  import opened Http2Lifecycle
  import opened Http2Client

  // ---------- settings ----------

  predicate Acceptable(s: (nat, nat)) {
    && (s.0 == 4 ==> s.1 <= 0x7fff_ffff)
    && (s.0 == 5 ==> 16384 <= s.1 <= 1048576)
  }

  predicate OnWire(settings: seq<(nat, nat)>) {
    forall i :: 0 <= i < |settings| ==> settings[i].0 < 0x1_0000 && settings[i].1 < 0x1_0000_0000
  }

  predicate AllAcceptable(settings: seq<(nat, nat)>) {
    forall i :: 0 <= i < |settings| ==> Acceptable(settings[i])
  }

  /** The last value of a parameter, or the one it had. */
  function LastOf(settings: seq<(nat, nat)>, id: nat, old_: int): int {
    if settings == [] then old_
    else LastOf(settings[1..], id, if settings[0].0 == id then settings[0].1 else old_)
  }

  /** No change of the initial window takes the send window out of its range. */
  predicate InRange(settings: seq<(nat, nat)>, window: int, initial: int) {
    forall i :: 0 <= i < |settings| && settings[i].0 == 4 ==> 0 <= window + settings[i].1 - initial <= 0x7fff_ffff
  }

  lemma OneSetting(s: (nat, nat), more: seq<byte>)
    requires s.0 < 0x1_0000 && s.1 < 0x1_0000_0000
    ensures var p := SettingsPayload([s]) + more;
            && |p| >= 6 && p[6..] == more && p[0] as nat * 256 + p[1] == s.0
            && FromBe32(p[2], p[3], p[4], p[5]) == s.1
  {
    hide Be32, FromBe32;
    var first := [s];
    assert |first[1..]| == 0;
    assert SettingsPayload([]) == [];
    Be32RoundTrip(s.1);
    var p := SettingsPayload([s]) + more;
    assert p == [s.0 / 256, s.0 % 256] + Be32(s.1) + more;
  }

  lemma SettingsCons(settings: seq<(nat, nat)>)
    requires OnWire(settings) && settings != []
    ensures OnWire(settings[1..])
    ensures SettingsPayload(settings) == SettingsPayload([settings[0]]) + SettingsPayload(settings[1..])
  {
    hide Be32;
    var first := [settings[0]];
    assert |first[1..]| == 0;
    assert SettingsPayload([]) == [];
    var a, b := [settings[0].0 / 256, settings[0].0 % 256], Be32(settings[0].1);
    assert SettingsPayload(first) == a + b + [];
    assert a + b + [] == a + b;
  }

  /** Any list of settings: it is refused exactly if one of them is out of bounds.  Otherwise
      the last frame size and the last initial window hold, and nothing but these and the send
      window changes. */
  lemma {:induction false} SettingsMean(h: H2, settings: seq<(nat, nat)>)
    requires OnWire(settings)
    ensures var o := ApplySettings(h, SettingsPayload(settings));
            && (o.error.None? <==> AllAcceptable(settings))
            && (AllAcceptable(settings) ==>
                  && o.h == h.(maxFrameSize := o.h.maxFrameSize, peerInitialWindow := o.h.peerInitialWindow,
                               sendWindow := o.h.sendWindow)
                  && o.h.maxFrameSize == LastOf(settings, 5, h.maxFrameSize)
                  && o.h.peerInitialWindow == LastOf(settings, 4, h.peerInitialWindow))
    decreases |settings|
  {
    hide SettingsPayload, FromBe32, Clamp;
    if settings == [] {
      NoSettings();
    } else {
      var s, rest := settings[0], settings[1..];
      SettingsCons(settings);
      OneSetting(s, SettingsPayload(rest));
      FirstAcceptable(settings);
      if Acceptable(s) {
        var moved := Clamp(h.sendWindow + s.1 - h.peerInitialWindow);
        var g := if s.0 == 4 then h.(peerInitialWindow := s.1, sendWindow := moved)
                 else if s.0 == 5 then h.(maxFrameSize := s.1)
                 else h;
        SettingsMean(g, rest);
      }
    }
  }

  lemma NoSettings()
    ensures SettingsPayload([]) == []
  {
  }

  lemma FirstAcceptable(settings: seq<(nat, nat)>)
    requires settings != []
    ensures AllAcceptable(settings) <==> Acceptable(settings[0]) && AllAcceptable(settings[1..])
  {
    hide Acceptable;
    if Acceptable(settings[0]) && AllAcceptable(settings[1..]) {
      forall i | 0 <= i < |settings| ensures Acceptable(settings[i]) {
        if i > 0 { assert settings[1..][i - 1] == settings[i]; }
      }
    }
  }

  /** The send window moves by as much as the initial window, for one setting exactly if the
      result is in range: the source never lets it go below zero, where RFC 7540 section 6.9.2
      asks for that. */
  lemma WindowFollowsIff(h: H2, value: nat)
    requires value <= 0x7fff_ffff
    ensures var w := ApplySettings(h, SettingsPayload([(4, value)])).h.sendWindow;
            w == h.sendWindow + value - h.peerInitialWindow
            <==> 0 <= h.sendWindow + value - h.peerInitialWindow <= 0x7fff_ffff
  {
    OneSetting((4, value), []);
    assert SettingsPayload([(4, value)]) + [] == SettingsPayload([(4, value)]);
    assert ApplySettings(h.(peerInitialWindow := value,
                            sendWindow := Clamp(h.sendWindow + value - h.peerInitialWindow)), []).error.None?;
  }

  lemma {:induction false} WindowFollows(h: H2, settings: seq<(nat, nat)>)
    requires OnWire(settings) && AllAcceptable(settings) && InRange(settings, h.sendWindow, h.peerInitialWindow)
    ensures var g := ApplySettings(h, SettingsPayload(settings)).h;
            g.sendWindow - g.peerInitialWindow == h.sendWindow - h.peerInitialWindow
    decreases |settings|
  {
    hide SettingsPayload, FromBe32;
    if settings == [] {
      NoSettings();
    } else {
      var s, rest := settings[0], settings[1..];
      SettingsCons(settings);
      OneSetting(s, SettingsPayload(rest));
      FirstAcceptable(settings);
      assert forall i :: 0 <= i < |rest| ==> rest[i] == settings[i + 1];
      var moved := Clamp(h.sendWindow + s.1 - h.peerInitialWindow);
      var g := if s.0 == 4 then h.(peerInitialWindow := s.1, sendWindow := moved)
               else if s.0 == 5 then h.(maxFrameSize := s.1)
               else h;
      WindowFollows(g, rest);
    }
  }

  // ---------- single frames ----------

  /** A SETTINGS frame is applied and acknowledged, a PING is echoed, a WINDOW_UPDATE adds to
      the send window up to its maximum, a RST_STREAM drops the request under construction. */
  lemma SettingsAreAcknowledged(h: H2, settings: seq<(nat, nat)>, flags: byte, maxBody: nat)
    requires h.partialHeaders.None? && OnWire(settings) && AllAcceptable(settings) && flags % 2 == 0
    ensures var o := HandleFrame(h, Frame(4, flags, 0, SettingsPayload(settings)), maxBody);
            && o.error.None?
            && o.h.frames == h.frames + [[0, 0, 0, 4, 1, 0, 0, 0, 0]]
            && o.h.maxFrameSize == LastOf(settings, 5, h.maxFrameSize)
            && o.h == ApplySettings(h, SettingsPayload(settings)).h.(frames := o.h.frames)
  {
    hide SettingsPayload, ApplySettings;
    SettingsMean(h, settings);
    PayloadLength(settings);
    AckBytes();
  }

  lemma {:induction false} PayloadLength(settings: seq<(nat, nat)>)
    requires OnWire(settings)
    ensures |SettingsPayload(settings)| == 6 * |settings|
  {
    if settings != [] {
      PayloadLength(settings[1..]);
    }
  }

  lemma AckBytes()
    ensures FrameBytes(SETTINGS, ACK, 0, []) == [0, 0, 0, 4, 1, 0, 0, 0, 0]
  {
  }

  lemma PingIsEchoed(h: H2, flags: byte, payload: seq<byte>, maxBody: nat)
    requires h.partialHeaders.None? && |payload| == 8
    ensures HandleFrame(h, Frame(6, flags, 0, payload), maxBody)
            == if flags % 2 == 1 then Fine(h)
               else Fine(h.(frames := h.frames + [[0, 0, 8, 6, 1, 0, 0, 0, 0] + payload]))
  {
    assert FrameBytes(PING, ACK, 0, payload) == [0, 0, 8, 6, 1, 0, 0, 0, 0] + payload;
  }

  lemma WindowGrows(h: H2, flags: byte, stream: nat, increment: nat, maxBody: nat)
    requires h.partialHeaders.None? && increment < 0x1_0000_0000 && stream < 0x8000_0000
    requires stream == 0 || (h.current.Some? && h.current.value.streamId == stream)
    ensures var o, by_ := HandleFrame(h, Frame(8, flags, stream, Be32(increment)), maxBody), increment % 0x8000_0000;
            if by_ == 0 then o == Bad(h, ZeroIncrement)
            else o == Fine(h.(sendWindow := o.h.sendWindow))
                 && (0 <= h.sendWindow <= 0x7fff_ffff ==>
                       o.h.sendWindow == if h.sendWindow + by_ <= 0x7fff_ffff then h.sendWindow + by_ else 0x7fff_ffff)
  {
    hide Be32, FromBe32;
    Be32RoundTrip(increment);
  }

  lemma ResetDropsTheRequest(h: H2, flags: byte, stream: nat, code: seq<byte>, maxBody: nat)
    requires h.partialHeaders.None? && |code| == 4 && stream < 0x8000_0000
    ensures HandleFrame(h, Frame(3, flags, stream, code), maxBody)
            == if h.partialRequest.Some? && h.partialRequest.value.streamId == stream
               then Fine(h.(partialRequest := None)) else Fine(h)
  {
  }

  /** Which frames other than HEADERS, CONTINUATION and DATA on a client's stream are refused;
      types are the numbers of section 11.2. */
  lemma ControlRefusedIff(h: H2, f: Frame)
    requires f.ty == 4 && f.stream == 0 && f.flags % 2 == 0 ==> f.payload == []
    ensures HandleControl(h, f).error.Some?
            <==> || (f.ty == 2 && |f.payload| != 5)
                 || (f.ty == 3 && |f.payload| != 4)
                 || (f.ty == 4 && (f.stream != 0 || (f.flags % 2 == 1 && f.payload != [])))
                 || f.ty == 5
                 || (f.ty == 6 && (f.stream != 0 || |f.payload| != 8))
                 || f.ty == 7
                 || (f.ty == 8 && (|| (f.stream != 0 && (h.current.None? || h.current.value.streamId != f.stream))
                                   || |f.payload| != 4
                                   || (f.payload[0] % 128 == 0 && f.payload[1..] == [0, 0, 0])))
  {
    hide HandleSettings, HandlePing, HandleWindowUpdate;
    if f.ty == 4 && f.stream == 0 {
      PlainSettings(h, f);
    } else if f.ty == 6 {
      PingRefused(h, f);
    } else if f.ty == 8 {
      UpdateRefused(h, f);
    }
  }

  lemma PlainSettings(h: H2, f: Frame)
    requires f.flags % 2 == 0 ==> f.payload == []
    ensures HandleSettings(h, f).error.Some? <==> f.flags % 2 == 1 && f.payload != []
  {
    hide FrameBytes;
    if f.payload == [] {
      assert ApplySettings(h, f.payload) == Fine(h);
    }
  }

  lemma PingRefused(h: H2, f: Frame)
    ensures HandlePing(h, f).error.Some? <==> |f.payload| != 8
  {
  }

  lemma UpdateRefused(h: H2, f: Frame)
    ensures HandleWindowUpdate(h, f).error.Some?
            <==> |f.payload| != 4 || (f.payload[0] % 128 == 0 && f.payload[1..] == [0, 0, 0])
  {
    hide FromBe32;
    var p := f.payload;
    if |p| == 4 {
      assert p[1..] == [p[1], p[2], p[3]];
      NoIncrement(p[0], p[1], p[2], p[3]);
    }
  }

  lemma NoIncrement(a: byte, b: byte, c: byte, d: byte)
    ensures FromBe32(a, b, c, d) % 0x8000_0000 == 0 <==> a % 128 == 0 && b == 0 && c == 0 && d == 0
  {
    TopBit(a, b, c, d);
  }

  lemma TopBit(a: byte, b: byte, c: byte, d: byte)
    ensures FromBe32(a, b, c, d) % 0x8000_0000 == FromBe32(a % 128, b, c, d)
  {
    assert a == a / 128 * 128 + a % 128;
  }

  /** Frames of unknown types, and DATA and HEADERS on streams that no client may use, do
      nothing; so do HEADERS on a stream that is not new, trailers among them, whose header
      block is not decoded. */
  lemma IgnoredFrames(h: H2, f: Frame, maxBody: nat)
    requires h.partialHeaders.None? && f.stream < 0x8000_0000
    requires f.ty >= 10 || (f.ty == 0 && f.stream % 2 == 0) || (f.ty == 9 && f.stream == 0)
             || (f.ty == 1 && (f.stream % 2 == 0 || f.stream <= h.lastStreamId))
    ensures HandleFrame(h, f, maxBody) == Fine(h)
  {
  }

  /** While a header block is under way, only its continuation is read. */
  lemma OnlyContinuation(h: H2, f: Frame, maxBody: nat)
    requires h.partialHeaders.Some? && f.stream < 0x8000_0000
    ensures HandleFrame(h, f, maxBody).error.None? ==>
              f.ty == 9 && (f.stream == h.partialHeaders.value.stream || HandleFrame(h, f, maxBody) == Fine(h))
    ensures HandleFrame(h, f, maxBody).error.None? && f.stream != h.partialHeaders.value.stream ==> f.stream == 0
    ensures f.ty != 9 ==> HandleFrame(h, f, maxBody) == Bad(h, ExpectedContinuation)
  {
    hide DecodeHeaders;
  }

  const FIRST_PAYLOAD: seq<byte> := [0, 3, 0, 0, 0, 100, 0, 4, 0, 16, 0, 0, 0, 5, 0, 16, 0, 0]

  lemma FirstPayload()
    ensures SettingsPayload(OWN_SETTINGS) == FIRST_PAYLOAD
  {
    var all: seq<(nat, nat)> := OWN_SETTINGS;
    var two: seq<(nat, nat)> := all[1..];
    var one: seq<(nat, nat)> := two[1..];
    assert two == [(4, 1048576), (5, 1048576)] && one == [(5, 1048576)] && |one[1..]| == 0;
    assert SettingsPayload([]) == [];
    assert SettingsPayload(one) == [0, 5, 0, 16, 0, 0];
    assert SettingsPayload(two) == [0, 4, 0, 16, 0, 0, 0, 5, 0, 16, 0, 0];
  }

  /** What a server says first: at most 100 streams, a window of 1 MiB, frames of 1 MiB. */
  lemma FirstFrame()
    ensures NewH2().frames == [[0, 0, 18, 4, 0, 0, 0, 0, 0] + FIRST_PAYLOAD]
    ensures NewH2().sendWindow == 65535 && NewH2().maxFrameSize == 16384
  {
    hide SettingsPayload;
    FirstPayload();
    assert |FIRST_PAYLOAD| == 18;
    assert Be32(0) == [0, 0, 0, 0];
    assert FrameBytes(SETTINGS, 0, 0, FIRST_PAYLOAD) == [0, 0, 18, 4, 0, 0, 0, 0, 0] + FIRST_PAYLOAD;
  }
}
