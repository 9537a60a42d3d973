/** The runtime record of a paired device (proto_device_model.h) and what its frames and exchanges leave in it
    (hub_internal.h, hub_status.cpp). */
module Device {
  import opened Bytes
  import opened CommandFrames
  import opened Frame
  import opened LinkHealth
  import opened Motion

  type uint16 = x: int | 0 <= x <= 65535

  const UINT16_MAX: uint16 := 65535
  const PRIVATE_RESPONSE_TARGET_OFFSET: nat := 2
  const PRIVATE_RESPONSE_CURRENT_OFFSET: nat := 4
  const STATUS_UPDATE_TARGET_OFFSET: nat := 5
  const STATUS_UPDATE_CURRENT_OFFSET: nat := 7
  const EXTENDED_TILT_RESPONSE_MIN_DATA_LEN: nat := 15
  const EXTENDED_TILT_SELECTOR_OFFSET: nat := 12
  const EXTENDED_TILT_MSB_OFFSET: nat := 13

  /** What changes in the record. */
  datatype Record = Record(motion: Motion, tilt: real, lastStatus: nat, resultCode: byte, resultAt: nat,
                           lastSeen: nat, lastRssi: int16, rssiEma: int16, timeouts: uint16, attempts: uint16)

  // ---- The operations on a record

  /** update_link_health. */
  function Heard(d: Record, capture: Capture, now: nat): Record {
    if capture.Valid? then d.(lastSeen := now, lastRssi := capture.rssi, rssiEma := Blend(d.rssiEma, capture.rssi))
    else d.(lastSeen := now)
  }

  /** Counters stop at their maximum. */
  function Saturated(n: nat): uint16 {
    if n <= UINT16_MAX then n else UINT16_MAX
  }

  /** record_exchange_timeout. */
  function TimedOut(d: Record, tries: nat): Record {
    d.(timeouts := Saturated(d.timeouts + 1), attempts := Saturated(d.attempts + tries))
  }

  /** record_command_result. */
  function Refused(d: Record, code: byte, now: nat): Record {
    d.(resultCode := code, resultAt := now)
  }

  /** clear_command_result. */
  function Forgiven(d: Record): Record {
    d.(resultCode := 0, resultAt := 0)
  }

  /** The tilt of a reply to a device with tilt, when the reply is extended. */
  function TiltAfter(tilt: real, f: IoFrame, allow: bool): real {
    if allow && f.dataLen >= EXTENDED_TILT_RESPONSE_MIN_DATA_LEN
       && f.data[EXTENDED_TILT_SELECTOR_OFFSET] == STATUS_TILT_SELECTOR
    then DecodeTiltReport(Raw(f.data, EXTENDED_TILT_MSB_OFFSET)) else tilt
  }

  /** The flag of a status frame is always taken, the positions only when they are trusted. */
  function MotionAfter(m: Motion, f: IoFrame, targetOffset: nat, currentOffset: nat, trust: bool): Motion
    requires targetOffset < 20 && currentOffset < 20
  {
    var flag := f.data[0] & STATUS_STOPPED != 0;
    if trust then Reported(flag, Raw(f.data, targetOffset), Raw(f.data, currentOffset))
    else Normalized(m.(stopped := flag))
  }

  /** A private response to a device that may support tilt. */
  function PrivateReported(d: Record, f: IoFrame, trust: bool, supportsTilt: bool, now: nat): Record {
    d.(motion := MotionAfter(d.motion, f, PRIVATE_RESPONSE_TARGET_OFFSET, PRIVATE_RESPONSE_CURRENT_OFFSET, trust),
       tilt := TiltAfter(d.tilt, f, trust && supportsTilt), lastStatus := now)
  }

  /** A status update the device sent on its own. */
  function UpdateReported(d: Record, f: IoFrame, now: nat): Record {
    d.(motion := MotionAfter(d.motion, f, STATUS_UPDATE_TARGET_OFFSET, STATUS_UPDATE_CURRENT_OFFSET, true),
       lastStatus := now)
  }

  // ---- The class

  class IoDevice {
    const nodeId: NodeId
    /** What the type of the device says; learning a type by radio is not modelled. */
    const supportsTilt: bool
    const inverted: bool
    var isStopped: bool
    var target: real
    var position: real
    var tilt: real
    var lastStatus: nat
    var lastResultCode: byte
    var lastResultAtMs: nat
    var lastSeenMs: nat
    var lastRssiDbm: int16
    var rssiEmaScaled: int16
    var exchangeTimeoutCount: uint16
    var exchangeAttemptCount: uint16

    constructor (nodeId: NodeId, supportsTilt: bool, inverted: bool)
      ensures this.nodeId == nodeId && this.supportsTilt == supportsTilt && this.inverted == inverted
      ensures State() == Record(Motion(true, UNKNOWN_POSITION, UNKNOWN_POSITION), UNKNOWN_POSITION, 0, 0, 0, 0,
                                RSSI_UNKNOWN_DBM, RSSI_UNKNOWN_DBM, 0, 0)
    {
      this.nodeId, this.supportsTilt, this.inverted := nodeId, supportsTilt, inverted;
      isStopped, target, position, tilt := true, UNKNOWN_POSITION, UNKNOWN_POSITION, UNKNOWN_POSITION;
      lastStatus, lastResultCode, lastResultAtMs := 0, 0, 0;
      lastSeenMs, lastRssiDbm, rssiEmaScaled := 0, RSSI_UNKNOWN_DBM, RSSI_UNKNOWN_DBM;
      exchangeTimeoutCount, exchangeAttemptCount := 0, 0;
    }

    function State(): Record
      reads this
    {
      Record(Motion(isStopped, target, position), tilt, lastStatus, lastResultCode, lastResultAtMs,
             lastSeenMs, lastRssiDbm, rssiEmaScaled, exchangeTimeoutCount, exchangeAttemptCount)
    }

    /** Always stamps the time, and blends a valid sample only. */
    method UpdateLinkHealth(capture: Capture, now: nat)
      modifies this
      ensures State() == Heard(old(State()), capture, now)
    {
      lastSeenMs := now;
      if capture.NoRadio? {
        return;
      }
      if !capture.Valid? {
        return;
      }
      lastRssiDbm := capture.rssi;
      if rssiEmaScaled == RSSI_UNKNOWN_DBM {
        rssiEmaScaled := Int16(capture.rssi * RSSI_EMA_SCALE);
        return;
      }
      rssiEmaScaled := Int16(rssiEmaScaled + capture.rssi - ScaledToDbm(rssiEmaScaled));
    }

    method RecordExchangeTimeout(tries: nat)
      modifies this
      ensures State() == TimedOut(old(State()), tries)
      ensures exchangeTimeoutCount == if old(exchangeTimeoutCount) < 65535 then old(exchangeTimeoutCount) + 1 else 65535
      ensures exchangeAttemptCount ==
              if old(exchangeAttemptCount) + tries < 65535 then old(exchangeAttemptCount) + tries else 65535
    {
      if exchangeTimeoutCount < UINT16_MAX {
        exchangeTimeoutCount := exchangeTimeoutCount + 1;
      }
      exchangeAttemptCount := Saturated(exchangeAttemptCount + tries);
    }

    method RecordCommandResult(code: byte, now: nat)
      modifies this
      ensures State() == Refused(old(State()), code, now)
    {
      lastResultCode := code;
      lastResultAtMs := now;
    }

    method ClearCommandResult()
      modifies this
      ensures State() == Forgiven(old(State()))
    {
      lastResultCode := 0;
      lastResultAtMs := 0;
    }

    method NormalizeStoppedState()
      modifies this`isStopped
      ensures Motion(isStopped, target, position) == Normalized(old(Motion(isStopped, target, position)))
    {
      if isStopped && target != UNKNOWN_POSITION && position != UNKNOWN_POSITION
         && !HasReachedTarget(target, position) {
        isStopped := false;
      }
    }

    /** Takes the positions, and where it is allowed the tilt, of a status frame whose flag is already taken. */
    method DecodeStatusFields(f: IoFrame, targetOffset: nat, currentOffset: nat, allowTilt: bool)
      requires targetOffset < 20 && currentOffset < 20
      modifies this`isStopped, this`target, this`position, this`tilt
      ensures Motion(isStopped, target, position) ==
              Reported(old(isStopped), Raw(f.data, targetOffset), Raw(f.data, currentOffset))
      ensures tilt == TiltAfter(old(tilt), f, allowTilt && supportsTilt)
    {
      var decoded := DecodePositionReport(Raw(f.data, targetOffset), Raw(f.data, currentOffset), isStopped);
      target, position := decoded.0, decoded.1;
      NormalizeStoppedState();
      if allowTilt && supportsTilt && f.dataLen >= EXTENDED_TILT_RESPONSE_MIN_DATA_LEN
         && f.data[EXTENDED_TILT_SELECTOR_OFFSET] == STATUS_TILT_SELECTOR {
        tilt := DecodeTiltReport(Raw(f.data, EXTENDED_TILT_MSB_OFFSET));
      }
    }

    /** The flag is always taken, the positions only when they are trusted. */
    method ReportPrivate(f: IoFrame, trust: bool, now: nat)
      modifies this
      ensures State() == PrivateReported(old(State()), f, trust, supportsTilt, now)
    {
      hide Reported, Normalized;
      isStopped := f.data[0] & STATUS_STOPPED != 0;
      lastStatus := now;
      if trust {
        DecodeStatusFields(f, PRIVATE_RESPONSE_TARGET_OFFSET, PRIVATE_RESPONSE_CURRENT_OFFSET, true);
      } else {
        NormalizeStoppedState();
      }
    }

    method ReportUpdate(f: IoFrame, now: nat)
      modifies this
      ensures State() == UpdateReported(old(State()), f, now)
    {
      hide Reported;
      isStopped := f.data[0] & STATUS_STOPPED != 0;
      lastStatus := now;
      DecodeStatusFields(f, STATUS_UPDATE_TARGET_OFFSET, STATUS_UPDATE_CURRENT_OFFSET, false);
    }
  }
}
