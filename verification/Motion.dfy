/** Position reports (proto_device_model.cpp, hub_internal.h).  A raw report of at most 51200 is a multiple of
    1/512 per cent, which the original's floats hold exactly, so positions are real numbers here. */
module Motion {
  import opened Bytes

  const STATUS_POS_MAX: nat := 0xC800
  const STATUS_POS_TOLERANCE_RAW: nat := 100
  const POSITION_PERCENT_MAX: nat := 100
  const UNKNOWN_POSITION: real := 212.0
  const STATUS_STOPPED: byte := 0x01
  const STATUS_TILT_SELECTOR: byte := 0x20

  /** What is known about the movement of a device. */
  datatype Motion = Motion(stopped: bool, target: real, position: real)

  /** Two bytes of a payload, most significant first. */
  function Raw(data: seq<byte>, offset: nat): nat
    requires offset + 1 < |data|
  {
    data[offset] as nat * 256 + data[offset + 1] as nat
  }

  function Percent(raw: nat): real {
    raw as real * 100.0 / STATUS_POS_MAX as real
  }

  /** decode_position_report: the target and the position, in this order. */
  function DecodePositionReport(targetRaw: nat, currentRaw: nat, stopped: bool): (real, real) {
    var targetValid := targetRaw <= STATUS_POS_MAX;
    var currentValid := currentRaw <= STATUS_POS_MAX;
    var target := if targetValid then Percent(targetRaw)
                  else if stopped && currentValid then Percent(currentRaw)
                  else UNKNOWN_POSITION;
    var position := if currentValid then Percent(currentRaw)
                    else if stopped && targetValid then target
                    else UNKNOWN_POSITION;
    (target, position)
  }

  /** has_reached_target_position. */
  predicate HasReachedTarget(target: real, position: real) {
    var tolerance := Percent(STATUS_POS_TOLERANCE_RAW);
    target != UNKNOWN_POSITION && position != UNKNOWN_POSITION && -tolerance <= target - position <= tolerance
  }

  /** normalize_stopped_state: a device that is not where it is going has not stopped yet. */
  function Normalized(m: Motion): Motion {
    if m.stopped && m.target != UNKNOWN_POSITION && m.position != UNKNOWN_POSITION
       && !HasReachedTarget(m.target, m.position)
    then m.(stopped := false) else m
  }

  /** The motion after a report whose position fields are trusted.  It leaves the device at rest exactly
      when it says so and its two positions, if both are given, are within the tolerance.  A given position
      is taken as it is; a missing one is that of the other when the report says stopped, and unknown
      otherwise. */
  function Reported(stopped: bool, targetRaw: nat, currentRaw: nat): (m: Motion)
    ensures m.stopped <==>
            stopped && (targetRaw <= 51200 && currentRaw <= 51200 ==>
                          targetRaw <= currentRaw + 100 &&
                          currentRaw <= targetRaw + 100)
    ensures targetRaw <= 51200 ==> m.target * 512.0 == targetRaw as real
    ensures currentRaw <= 51200 ==> m.position * 512.0 == currentRaw as real
    ensures targetRaw > 51200 ==> m.target == if stopped then m.position else 212.0
    ensures currentRaw > 51200 ==> m.position == if stopped then m.target else 212.0
  {
    var (target, position) := DecodePositionReport(targetRaw, currentRaw, stopped);
    Normalized(Motion(stopped, target, position))
  }

  /** The tilt of an extended report, 0 closed and 100 open. */
  function DecodeTiltReport(raw: nat): real {
    if raw > STATUS_POS_MAX then UNKNOWN_POSITION else 100.0 - Percent(raw)
  }
}
