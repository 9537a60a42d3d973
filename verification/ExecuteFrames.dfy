/** The frames that move a device or ask for its state (proto_commands.cpp). */
module ExecuteFrames {
  import opened Bytes
  import opened Commands
  import opened CommandFrames
  import opened Frame
  import opened Motion

  const EXECUTE_ORIGINATOR: byte := 0x01
  const EXECUTE_ACEI: byte := 0x63
  const EXECUTE_ACEI_FORCE_OPEN: byte := 0x03
  const EXECUTE_POSITION_LAYOUT_FLAG: byte := 0x80
  const EXECUTE_POSITION_PROFILE: byte := 0x06
  const PRIVATE_GET_POSITION_STATUS: byte := 0x02
  const POS_STOP: byte := 0xD2
  const POS_UNKNOWN: byte := 0xD4
  const POS_FAVORITE: byte := 0xD8
  const POS_VENT_MODIFIER: byte := 0x03

  datatype CoverCommand = STOP | FAVORITE | VENT | FORCE_OPEN

  // ---- Payloads

  /** make_position_payload; the byte for a position is twice its percentage. */
  function PositionPayload(acei: byte, position: byte): (p: seq<byte>)
    ensures |p| == 8
  {
    [EXECUTE_ORIGINATOR, acei, 2 * position, 0x00,
     EXECUTE_POSITION_LAYOUT_FLAG, POS_FAVORITE, EXECUTE_POSITION_PROFILE, 0x00]
  }

  function SpecialPayload(mainByte: byte, modifier: byte): (p: seq<byte>)
    ensures |p| == 6
  {
    [EXECUTE_ORIGINATOR, EXECUTE_ACEI, mainByte, modifier, 0x00, 0x00]
  }

  function ExecutePayload(position: byte): (p: seq<byte>)
    ensures |p| <= 8
  {
    if position <= 100 then PositionPayload(EXECUTE_ACEI, position) else SpecialPayload(position, 0x00)
  }

  function CommandPayload(command: CoverCommand, inverted: bool): (p: seq<byte>)
    ensures |p| <= 8
  {
    match command
    case STOP => SpecialPayload(POS_STOP, 0x00)
    case FAVORITE => SpecialPayload(POS_FAVORITE, 0x00)
    case VENT => SpecialPayload(POS_FAVORITE, POS_VENT_MODIFIER)
    case FORCE_OPEN => PositionPayload(EXECUTE_ACEI_FORCE_OPEN, if inverted then 100 else 0)
  }

  /** The raw tilt, truncated to sixteen bits. */
  function TiltValue(tiltPercent: nat): nat {
    (POSITION_PERCENT_MAX - tiltPercent) * STATUS_POS_MAX / POSITION_PERCENT_MAX % 0x1_0000
  }

  /** The byte that holds a number. */
  function ByteOf(v: nat): (b: byte)
    requires v < 256
    ensures b as nat == v
  {
    if v == 0 then 0 else ByteOf(v - 1) + 1
  }

  function TiltPayload(mainByte: byte, tiltPercent: byte): (p: seq<byte>)
    ensures |p| == 8
  {
    var v := TiltValue(tiltPercent as nat);
    [EXECUTE_ORIGINATOR, EXECUTE_ACEI, mainByte, 0x00, STATUS_TILT_SELECTOR, ByteOf(v / 256), ByteOf(v % 256), 0x00]
  }

  function StatusPayload(tilt: bool): (p: seq<byte>)
    ensures |p| <= 4
  {
    if tilt then [PRIVATE_GET_POSITION_STATUS, STATUS_TILT_SELECTOR, 0x01, 0x00]
    else [PRIVATE_GET_POSITION_STATUS, 0x00, 0x00]
  }

  /** A request to one device. */
  function Request(own: NodeId, dst: NodeId, cmd: byte, payload: seq<byte>): IoFrame
    requires |payload| <= FRAME_MAX_DATA_SIZE
  {
    WithCmd(Addressed(true, false, true, dst, own), cmd, payload)
  }

  // ---- Builders

  method CreateExecute(own: NodeId, dst: NodeId, position: byte) returns (ok: bool, f: IoFrame)
    ensures ok && f == Request(own, dst, CMD_EXECUTE, ExecutePayload(position))
  {
    f := StartFrame(true, false, true, dst, own);
    if position <= 100 {
      ok, f := SetCmd(f, CMD_EXECUTE, PositionPayload(EXECUTE_ACEI, position));
      return;
    }
    ok, f := SetCmd(f, CMD_EXECUTE, [EXECUTE_ORIGINATOR, EXECUTE_ACEI, position, 0x00, 0x00, 0x00]);
  }

  /** All but FORCE_OPEN, which has a builder of its own. */
  method CreateExecuteCommand(own: NodeId, dst: NodeId, command: CoverCommand) returns (ok: bool, f: IoFrame)
    ensures ok <==> !command.FORCE_OPEN?
    ensures ok ==> f == Request(own, dst, CMD_EXECUTE, CommandPayload(command, false))
  {
    var mainByte, modifier: byte := 0, 0;
    match command {
      case STOP => mainByte := POS_STOP;
      case FAVORITE => mainByte := POS_FAVORITE;
      case VENT => mainByte, modifier := POS_FAVORITE, POS_VENT_MODIFIER;
      case FORCE_OPEN => return false, ZERO_FRAME;
    }
    f := StartFrame(true, false, true, dst, own);
    ok, f := SetCmd(f, CMD_EXECUTE, [EXECUTE_ORIGINATOR, EXECUTE_ACEI, mainByte, modifier, 0x00, 0x00]);
  }

  method CreateForceOpen(own: NodeId, dst: NodeId, openPosition: byte) returns (ok: bool, f: IoFrame)
    ensures ok && f == Request(own, dst, CMD_EXECUTE, PositionPayload(EXECUTE_ACEI_FORCE_OPEN, openPosition))
  {
    f := StartFrame(true, false, true, dst, own);
    ok, f := SetCmd(f, CMD_EXECUTE, PositionPayload(EXECUTE_ACEI_FORCE_OPEN, openPosition));
  }

  method CreateExecuteTilt(own: NodeId, dst: NodeId, tiltPercent: byte) returns (ok: bool, f: IoFrame)
    ensures ok && f == Request(own, dst, CMD_EXECUTE, TiltPayload(POS_UNKNOWN, tiltPercent))
  {
    f := StartFrame(true, false, true, dst, own);
    ok, f := SetCmd(f, CMD_EXECUTE, TiltPayload(POS_UNKNOWN, tiltPercent));
  }

  method CreateExecutePositionAndTilt(own: NodeId, dst: NodeId, position: byte, tiltPercent: byte)
    returns (ok: bool, f: IoFrame)
    ensures ok <==> position <= 100
    ensures ok ==> f == Request(own, dst, CMD_EXECUTE, TiltPayload(2 * position, tiltPercent))
  {
    if position > 100 {
      return false, ZERO_FRAME;
    }
    f := StartFrame(true, false, true, dst, own);
    ok, f := SetCmd(f, CMD_EXECUTE, TiltPayload(2 * position, tiltPercent));
  }

  /** create_get_status, or create_get_status_tilt for a device with tilt. */
  method CreateGetStatus(own: NodeId, dst: NodeId, tilt: bool) returns (ok: bool, f: IoFrame)
    ensures ok && f == Request(own, dst, CMD_PRIVATE, StatusPayload(tilt))
  {
    f := StartFrame(true, false, true, dst, own);
    ok, f := SetCmd(f, CMD_PRIVATE, StatusPayload(tilt));
  }

  /** Whatever payload fits, the request serializes. */
  lemma RequestSerializes(own: NodeId, dst: NodeId, cmd: byte, payload: seq<byte>)
    requires |payload| <= FRAME_MAX_DATA_SIZE
    ensures Serializable(Request(own, dst, cmd, payload))
  {
    BuiltSerializes(Addressed(true, false, true, dst, own), cmd, payload);
  }

  // ---- On the air

  /** The named commands: stop and favourite are what the corresponding position codes are, ventilation is the
      favourite with a modifier, and force-open is the position of the device's open end at the highest priority. */
  lemma CommandBytes(inverted: bool)
    ensures CommandPayload(STOP, inverted) == ExecutePayload(POS_STOP) == [0x01, 0x63, 0xD2, 0x00, 0x00, 0x00]
    ensures CommandPayload(FAVORITE, inverted) == ExecutePayload(POS_FAVORITE) == [0x01, 0x63, 0xD8, 0x00, 0x00, 0x00]
    ensures CommandPayload(VENT, inverted) == CommandPayload(FAVORITE, inverted)[3 := 0x03]
    ensures CommandPayload(FORCE_OPEN, inverted) == ExecutePayload(if inverted then 100 else 0)[1 := 0x03]
    ensures CommandPayload(FORCE_OPEN, inverted) ==
            [0x01, 0x03, if inverted then 0xC8 else 0x00, 0x00, 0x80, 0xD8, 0x06, 0x00]
    ensures Percent(Raw(CommandPayload(FORCE_OPEN, inverted), 2)) == if inverted then 100.0 else 0.0
  {
    PositionReadsBack(EXECUTE_ACEI_FORCE_OPEN, if inverted then 100 else 0);
  }

  /** The requests: an execute command of eight or six bytes, and the two status requests. */
  lemma RequestOnAir(own: NodeId, dst: NodeId, payload: seq<byte>, tilt: bool)
    requires |payload| == 8 || |payload| == 6
    ensures Wire(Request(own, dst, CMD_EXECUTE, payload)) ==
            [if |payload| == 8 then 0x50 else 0x4E, 0x20] + dst + own + [0x00] + payload
    ensures Wire(Request(own, dst, CMD_PRIVATE, StatusPayload(tilt))) ==
            [if tilt then 0x4C else 0x4B, 0x20] + dst + own + [0x03]
            + if tilt then [0x02, 0x20, 0x01, 0x00] else [0x02, 0x00, 0x00]
  {
    WireOf(true, false, true, dst, own, CMD_EXECUTE, payload);
    WireOf(true, false, true, dst, own, CMD_PRIVATE, StatusPayload(tilt));
  }

  // ---- What a device reads

  /** A position is sent on the scale on which positions are reported: as the raw value that reads back as
      that percentage, whether it is moved to at the usual priority or at the highest. */
  lemma PositionReadsBack(acei: byte, position: byte)
    requires position <= 100
    ensures Percent(Raw(PositionPayload(acei, position), 2)) == position as real
  {
    assert (2 * position) as nat == 2 * position as nat;
  }

  lemma TiltValueExact(tiltPercent: nat)
    requires tiltPercent <= 100
    ensures TiltValue(tiltPercent) == (100 - tiltPercent) * 512
  {
  }

  lemma TiltHigh(tiltPercent: nat)
    ensures TiltValue(tiltPercent) / 256 == 2 * (100 - tiltPercent) % 256 && TiltValue(tiltPercent) % 256 == 0
  {
    var n := 100 - tiltPercent;
    var q, r := 2 * n / 256, 2 * n % 256;
    assert n * 51200 / 100 == 512 * n == 0x1_0000 * q + 256 * r;
    assert TiltValue(tiltPercent) == 256 * r by {
      Remainder(q, 256 * r);
    }
  }

  lemma Remainder(q: int, r: nat)
    requires r < 0x1_0000
    ensures (0x1_0000 * q + r) % 0x1_0000 == r
  {
  }

  /** A tilt takes one byte, on the scale of positions and from the closed end; beyond 100 it wraps.  Without a
      position the main byte is 0xD4. */
  lemma TiltBytes(mainByte: byte, tiltPercent: byte)
    ensures var p := TiltPayload(mainByte, tiltPercent);
            && p[..5] == [0x01, 0x63, mainByte, 0x00, 0x20] && p[6..] == [0x00, 0x00]
            && p[5] as int == 2 * (100 - tiltPercent as int) % 256
    ensures TiltPayload(POS_UNKNOWN, tiltPercent) == TiltPayload(0xD4, tiltPercent)
  {
    hide ByteOf, TiltValue;
    TiltHigh(tiltPercent as nat);
  }

  /** So is a tilt. */
  lemma TiltReadsBack(mainByte: byte, tiltPercent: byte)
    requires tiltPercent <= 100
    ensures DecodeTiltReport(Raw(TiltPayload(mainByte, tiltPercent), 5)) == tiltPercent as nat as real
  {
    hide TiltValue, ByteOf;
    TiltValueExact(tiltPercent as nat);
  }
}
