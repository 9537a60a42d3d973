/** Frames from the captures and tests of the original, byte by byte: what a reply leaves in the record of the device
    that sent it, whatever the record held before, and what a command looks like on the air. */
module Captures {
  import opened Bytes
  import opened Commands
  import opened Device
  import opened DeviceName
  import opened ExecuteFrames
  import opened Frame
  import opened Hub
  import opened LinkHealth
  import opened Motion
  import Decisions
  import Pairing
  import SoftPhy

  /** The answer to a status poll (status_poll_success_sx1276.yaml). */
  const STATUS_REPLY: seq<byte> :=
    [0x96, 0x00, 0xC0, 0xFF, 0xEE, 0x30, 0xE1, 0xF2, 0x04,
     0x04, 0x00, 0xC8, 0x00, 0x04, 0xE8, 0x00, 0x23, 0xC0, 0xFF, 0xEE, 0x01, 0x00, 0x00]

  /** The answer of a device with tilt (issue_23_linked_remote_triggers_status_poll.yaml). */
  const TILT_REPLY: seq<byte> :=
    [0x98, 0x00, 0x31, 0xBA, 0xF7, 0x7F, 0x59, 0x58, 0x04,
     0x05, 0x00, 0xD2, 0x00, 0xD8, 0x00, 0x00, 0x00, 0xAE, 0x29, 0x7D, 0x01, 0x20, 0x89, 0xEE, 0x00]

  /** The answer to a command (exchange_open_sx1276.yaml). */
  const COMMAND_REPLY: seq<byte> :=
    [0x8E, 0x00, 0xC0, 0xFF, 0xEE, 0x30, 0xE1, 0xF2, 0x04, 0x2C, 0x80, 0x25, 0x2F, 0x00, 0x00]

  /** A refusal (issue_23_tilt_priority_locked_error.yaml). */
  const REFUSAL: seq<byte> := [0x89, 0x00, 0x31, 0xBA, 0xF7, 0x7F, 0x59, 0x58, 0xFE, 0x38]

  /** A moving device that reports on its own (hub_core_test.cpp). */
  const MOVING_UPDATE: seq<byte> :=
    [0x93, 0x00, 0xC0, 0xFF, 0xEE, 0x05, 0x4E, 0x17, 0x71,
     0x00, 0x00, 0x00, 0x00, 0x00, 0xC8, 0x00, 0x32, 0x00, 0x00, 0x00]

  /** The highest-priority opening of an awning, which opens at 100 (exchange_force_open_sx1276.yaml). */
  const FORCED_OPENING: seq<byte> :=
    [0x50, 0x20, 0x30, 0xE1, 0xF2, 0xC0, 0xFF, 0xEE, 0x00, 0x01, 0x03, 0xC8, 0x00, 0x80, 0xD8, 0x06, 0x00]

  /** A packet of a one-way remote with an unknown command (issue_27_smoov_1w_sx1276_monitor.yaml). */
  const ONE_WAY: seq<byte> :=
    [0xFC, 0x00, 0x00, 0x00, 0x3F, 0x2F, 0x9A, 0x98, 0x30, 0x4F, 0xF4, 0x52, 0xA5, 0x1F, 0xE8,
     0xBF, 0x3A, 0xB9, 0xB4, 0xDC, 0xCA, 0xF9, 0x2F, 0x9A, 0x98, 0x02, 0x01, 0x17, 0x41]

  /** A request for the name, which has no payload (exchange_get_name_sx1276.yaml). */
  const NAME_REQUEST: seq<byte> := [0x48, 0x20, 0x30, 0xE1, 0xF2, 0xC0, 0xFF, 0xEE, 0x50]

  /** The answer with a name, "Patio Awning" (exchange_get_name_sx1276.yaml). */
  const NAME: seq<byte> := [0x50, 0x61, 0x74, 0x69, 0x6F, 0x20, 0x41, 0x77, 0x6E, 0x69, 0x6E, 0x67]
  const NAME_REPLY: seq<byte> :=
    [0x98, 0x00, 0xC0, 0xFF, 0xEE, 0x30, 0xE1, 0xF2, 0x51] + NAME + [0x00, 0x00, 0x00, 0x00]

  /** The answer to a discovery request (field_rs100_pairing_key_transfer_timeout.yaml). */
  const DISCOVERY_REPLY: seq<byte> :=
    [0xD1, 0x00, 0xD1, 0xD4, 0xFF, 0x8C, 0x08, 0x3C, 0x29, 0x00, 0x80, 0x8C, 0x08, 0x3C, 0x02, 0x1C, 0x09, 0x48]

  /** The payload of a parsed packet. */
  lemma ParsedData(buf: seq<byte>)
    requires FRAME_MIN_SIZE <= |buf| == FrameLength(buf[0])
    ensures Parse(buf).Accepted? && Parse(buf).frame.cmd == buf[8] && Parse(buf).frame.ctrl0 == buf[0]
    ensures Parse(buf).frame.dataLen == |buf| - 9
    ensures forall i :: 0 <= i < |buf| - 9 ==> Parse(buf).frame.data[i] == buf[i + 9]
  {
  }

  /** On its way to 100 per cent, at 1256 of 51200. */
  lemma StatusReplyReported(d: Record, supportsTilt: bool, rx: Reception)
    ensures Parse(STATUS_REPLY).Accepted?
    ensures Received(d, Parse(STATUS_REPLY).frame, true, supportsTilt, rx) ==
            Heard(d, rx.capture, rx.seen).(motion := Motion(false, 100.0, 2.453125), lastStatus := rx.at,
                                           resultCode := 0, resultAt := 0)
  {
    hide Heard, Parse;
    ParsedData(STATUS_REPLY);
  }

  /** At rest, with neither position known, and the tilt at 35310 of 51200 from open. */
  lemma TiltReplyReported(d: Record, supportsTilt: bool, rx: Reception)
    ensures Parse(TILT_REPLY).Accepted?
    ensures var h := Heard(d, rx.capture, rx.seen);
            Received(d, Parse(TILT_REPLY).frame, true, supportsTilt, rx) ==
            h.(motion := Motion(true, 212.0, 212.0), tilt := if supportsTilt then 31.03515625 else h.tilt,
               lastStatus := rx.at, resultCode := 0, resultAt := 0)
  {
    hide Heard, Parse;
    ParsedData(TILT_REPLY);
  }

  /** Moving; the positions in the reply to a command are not taken. */
  lemma CommandReplyReported(d: Record, supportsTilt: bool, rx: Reception)
    ensures Parse(COMMAND_REPLY).Accepted?
    ensures var h := Heard(d, rx.capture, rx.seen);
            Received(d, Parse(COMMAND_REPLY).frame, false, supportsTilt, rx) ==
            h.(motion := h.motion.(stopped := false), lastStatus := rx.at, resultCode := 0, resultAt := 0)
  {
    hide Heard, Parse;
    ParsedData(COMMAND_REPLY);
  }

  lemma RefusalReported(d: Record, trust: bool, supportsTilt: bool, rx: Reception)
    ensures Parse(REFUSAL).Accepted?
    ensures Received(d, Parse(REFUSAL).frame, trust, supportsTilt, rx) ==
            Heard(d, rx.capture, rx.seen).(resultCode := 0x38, resultAt := rx.at)
  {
    hide Heard, Parse;
    ParsedData(REFUSAL);
  }

  /** On its way to 100 per cent, at 25. */
  lemma MovingUpdateReported(d: Record, trust: bool, supportsTilt: bool, rx: Reception)
    ensures Parse(MOVING_UPDATE).Accepted?
    ensures Received(d, Parse(MOVING_UPDATE).frame, trust, supportsTilt, rx) ==
            Heard(d, rx.capture, rx.seen).(motion := Motion(false, 100.0, 25.0), lastStatus := rx.at,
                                           resultCode := 0, resultAt := 0)
  {
    hide Heard, Parse;
    ParsedData(MOVING_UPDATE);
  }

  lemma ForcedOpeningSent()
    ensures Wire(Request([0xC0, 0xFF, 0xEE], [0x30, 0xE1, 0xF2], CMD_EXECUTE, CommandPayload(FORCE_OPEN, true))) ==
            FORCED_OPENING
  {
    hide Wire;
    RequestOnAir([0xC0, 0xFF, 0xEE], [0x30, 0xE1, 0xF2], CommandPayload(FORCE_OPEN, true), false);
    assert CommandPayload(FORCE_OPEN, true) == [0x01, 0x03, 0xC8, 0x00, 0x80, 0xD8, 0x06, 0x00];
  }

  /** Plain ASCII is its own encoding. */
  lemma {:induction false} AsciiUnchanged(chars: seq<byte>)
    requires forall i :: 0 <= i < |chars| ==> chars[i] < 0x80
    ensures Utf8(chars) == chars
  {
    if chars != [] {
      AsciiUnchanged(chars[1..]);
      assert chars == [chars[0]] + chars[1..];
    }
  }

  lemma NameReplyRead()
    ensures Parse(NAME_REPLY).Accepted? && Decode(Payload(Parse(NAME_REPLY).frame)) == NAME
  {
    hide Utf8, Decode, NameBytes, Zeros;
    var f := Parse(NAME_REPLY).frame;
    ParsedData(NAME_REPLY);
    assert Zeros(4) == [0x00, 0x00, 0x00, 0x00];
    assert Payload(f) == NAME + Zeros(4);
    DecodePayload(NAME);
    AsciiUnchanged(NAME);
  }

  /** The device is the sender, with the type and subtype bytes at the front. */
  lemma DiscoveryReplyRead()
    ensures Parse(DISCOVERY_REPLY).Accepted?
    ensures var f := Parse(DISCOVERY_REPLY).frame;
            && Decisions.IsDiscoveryResponse(f)
            && Pairing.DeviceFromDiscovery(f) == Pairing.Device([0x8C, 0x08, 0x3C], [0x00, 0x80])
  {
    ParsedData(DISCOVERY_REPLY);
  }

  /** The frame search takes a known command however short, and an unknown one only from a one-way remote. */
  lemma FramesPlausible()
    ensures Parse(NAME_REQUEST).Accepted? && SoftPhy.Plausible(Parse(NAME_REQUEST).frame, 9)
    ensures Parse(ONE_WAY).Accepted? && SoftPhy.Plausible(Parse(ONE_WAY).frame, 29)
    ensures var twoWay := ONE_WAY[0 := 0xDC];
            Parse(twoWay).Accepted? && !SoftPhy.Plausible(Parse(twoWay).frame, 29)
  {
    hide Parse;
    ParsedData(NAME_REQUEST);
    ParsedData(ONE_WAY);
    ParsedData(ONE_WAY[0 := 0xDC]);
  }

  /** Three samples and the average after each, displayed as -80, -79 and -77 dBm (hub_core_test.cpp). */
  lemma SamplesBlended()
    ensures Average([-80]) == -640 && Average([-80, -72]) == -632 && Average([-80, -72, -64]) == -617
    ensures Displayed(-640) == -80 && Displayed(-632) == -79 && Displayed(-617) == -77
  {
    var s1: seq<int16> := [-80];
    var s2: seq<int16> := [-80, -72];
    var s3: seq<int16> := [-80, -72, -64];
    assert s1[..0] == [] && s2[..1] == s1 && s3[..2] == s2;
  }
}
