/** Commands and polls as the hub carries them out (hub_operations.cpp, hub_status.cpp): one exchange, and what
    its result does to the device record and the poll schedule. */
module Hub {
  import opened Bytes
  import opened Clock
  import opened Commands
  import opened Device
  import opened ExecuteFrames
  import opened Frame
  import opened LinkHealth
  import opened PollPolicy
  import opened PollReplies
  import opened Radio
  import X = ExchangeTrace
  import E = Exchange

  const PRIVATE_RESPONSE_MIN_DATA_LEN: nat := 6
  const STATUS_UPDATE_MIN_DATA_LEN: nat := 11

  /** The reply carries the device's state. */
  predicate IsStatus(f: IoFrame) {
    || (f.cmd == CMD_PRIVATE_RESP && f.dataLen >= PRIVATE_RESPONSE_MIN_DATA_LEN)
    || (f.cmd == CMD_STATUS_UPDATE && f.dataLen >= STATUS_UPDATE_MIN_DATA_LEN)
  }

  /** The schedule after a frame of a registered device that it left stopped or not. */
  function AfterReply(m: Table, id: string, f: IoFrame, stopped: bool, now: nat): Table {
    if !IsStatus(f) then m
    else if f.cmd == CMD_PRIVATE_RESP then AfterPrivateResponse(m, id, Payload(f), stopped, now)
    else AfterUnsolicitedUpdate(m, id, stopped, now)
  }

  /** The radio's last capture when a frame was handled, and the two clock readings made. */
  datatype Reception = Reception(capture: Capture, seen: nat, at: nat)

  /** The record after a frame of the device: every frame counts for the link, a status report clears the last
      refusal, and a refusal is kept. */
  function Received(d: Record, f: IoFrame, trust: bool, supportsTilt: bool, rx: Reception): Record {
    var h := Heard(d, rx.capture, rx.seen);
    if f.cmd == CMD_PRIVATE_RESP then
      if f.dataLen < PRIVATE_RESPONSE_MIN_DATA_LEN then h
      else Forgiven(PrivateReported(h, f, trust, supportsTilt, rx.at))
    else if f.cmd == CMD_STATUS_UPDATE then
      if f.dataLen < STATUS_UPDATE_MIN_DATA_LEN then h else Forgiven(UpdateReported(h, f, rx.at))
    else if f.cmd == CMD_ERROR_RESP && f.dataLen > 0 then Refused(h, f.data[0], rx.at)
    else h
  }

  /** The exchange ended with a reply that is not a refusal. */
  ghost predicate Answered(o: X.Seen) {
    o.stage.Finished? && o.stage.frame.cmd != CMD_ERROR_RESP
  }

  /** The record after an exchange.  The positions in the reply to a command are not trusted; without a reply
      three attempts are counted. */
  ghost function AfterExchange(d: Record, request: IoFrame, o: X.Seen, supportsTilt: bool, rx: Reception): Record {
    if o.stage.Finished? then Received(d, o.stage.frame, request.cmd != CMD_EXECUTE, supportsTilt, rx)
    else TimedOut(d, X.EXCHANGE_RETRY_COUNT)
  }

  class HubOperations {
    const radio: RadioDriver
    const engine: E.Engine
    const policy: StatusPollPolicy

    constructor (engine: E.Engine, policy: StatusPollPolicy)
      ensures this.radio == engine.radio && this.engine == engine && this.policy == policy
    {
      this.radio := engine.radio;
      this.engine := engine;
      this.policy := policy;
    }

    predicate Valid() {
      engine.radio == radio && radio.Valid()
    }

    /** What the observer of the exchange saw since index `base` of the log. */
    ghost function Seen(request: IoFrame, base: nat): X.Seen
      requires engine.radio == radio && base <= |radio.log|
      reads radio`log
    {
      engine.Observed(request, FREQ_CH2, base)
    }

    // ---- Replies

    /** Whatever the radio captured last. */
    method LastCapture() returns (c: Capture)
      ensures !c.NoRadio?
    {
      var valid: bool := *;
      var rssi: int16 := *;
      c := if valid then Capture.Valid(rssi) else Invalid;
    }

    /** schedule_background_poll_backoff_; `at` is the clock reading it uses. */
    method ScheduleBackoff(id: string, authLike: bool) returns (ghost at: nat)
      modifies radio`time, policy
      ensures old(radio.time) <= radio.time && at == U32(radio.time)
      ensures policy.tracking == Step(old(policy.tracking), Call.Fail(id, authLike, at))
    {
      var now := radio.Millis();
      at := now;
      var _ := policy.OnExchangeFailed(id, authLike, now);
    }

    /** The link health of the device of which a frame was just received. */
    method Notice(device: IoDevice) returns (ghost capture: Capture, ghost seen: nat)
      modifies radio`time, device
      ensures old(radio.time) <= radio.time
      ensures device.State() == Heard(old(device.State()), capture, seen)
    {
      var c := LastCapture();
      var now := radio.Millis();
      capture, seen := c, now;
      device.UpdateLinkHealth(c, now);
    }

    /** update_device_status_ for a frame of a registered device; name and metadata replies change nothing that
        is modelled. */
    method UpdateDeviceStatus(id: string, device: IoDevice, f: IoFrame, trust: bool) returns (ghost rx: Reception)
      modifies radio`time, policy, device
      ensures old(radio.time) <= radio.time && rx.at == U32(radio.time)
      ensures device.State() == Received(old(device.State()), f, trust, device.supportsTilt, rx)
      ensures policy.tracking == AfterReply(old(policy.tracking), id, f, device.isStopped, rx.at)
    {
      hide Heard, PrivateReported, UpdateReported, AfterPrivateResponse, AfterUnsolicitedUpdate, Payload;
      ghost var capture, seen := Notice(device);
      var now := radio.Millis();
      rx := Reception(capture, seen, now);
      if f.cmd == CMD_PRIVATE_RESP {
        if f.dataLen < PRIVATE_RESPONSE_MIN_DATA_LEN {
          return;
        }
        ApplyPrivateResponse(policy, id, device, f, trust, now);
        device.ClearCommandResult();
        return;
      }
      if f.cmd == CMD_STATUS_UPDATE {
        if f.dataLen < STATUS_UPDATE_MIN_DATA_LEN {
          return;
        }
        ApplyUnsolicitedUpdate(policy, id, device, f, now);
        device.ClearCommandResult();
        return;
      }
      if f.cmd == CMD_ERROR_RESP {
        if f.dataLen < 1 {
          return;
        }
        device.RecordCommandResult(f.data[0], now);
      }
    }

    /** The branch of execute_request_and_update_ for an explicit refusal. */
    method Refuse(device: IoDevice, f: IoFrame, ghost trust: bool) returns (ghost rx: Reception)
      requires f.cmd == CMD_ERROR_RESP
      modifies radio`time, device
      ensures old(radio.time) <= radio.time
      ensures device.State() == Received(old(device.State()), f, trust, device.supportsTilt, rx)
    {
      hide Heard, PrivateReported, UpdateReported;
      ghost var capture, seen := Notice(device);
      var now := radio.Millis();
      rx := Reception(capture, seen, now);
      if f.dataLen != 0 {
        device.RecordCommandResult(f.data[0], now);
      }
    }

    /** execute_request_and_update_.  A failed poll is counted as auth-like exactly when the device
        challenged the request during the exchange. */
    method ExecuteRequestAndUpdate(id: string, device: IoDevice, request: IoFrame, retryAfterFail: bool)
      returns (ok: bool, ghost rx: Reception, ghost at: nat)
      requires Valid()
      modifies radio`time, radio`interruptions, radio`listens, radio`frequency, radio`log, radio`levels
      modifies engine`debug, policy, device
      ensures old(radio.log) <= radio.log && old(radio.time) <= radio.time && at == U32(radio.time)
      ensures var o := Seen(request, old(|radio.log|));
              && (ok <==> Answered(o))
              && (engine.debug.sawChallenge <==> o.challenges > 0)
              && (!o.stage.Finished? && Serializable(request) ==> o.requests == X.EXCHANGE_RETRY_COUNT)
              && device.State() == AfterExchange(old(device.State()), request, o, device.supportsTilt, rx)
              && policy.tracking ==
                 (if ok then
                    var m := if retryAfterFail then Step(old(policy.tracking), Call.ClearStreaks(id))
                             else old(policy.tracking);
                    AfterReply(m, id, o.stage.frame, device.isStopped, at)
                  else if retryAfterFail then Step(old(policy.tracking), Call.Fail(id, o.challenges > 0, at))
                  else old(policy.tracking))
    {
      hide X.Observe, AfterReply, Received, TimedOut, Step, Serializable, AllSent, IsStart;
      var response;
      ok, response := engine.SendAndReceive(request, ZERO_FRAME, FREQ_CH2);
      rx := Reception(NoRadio, 0, 0);
      if !ok {
        device.RecordExchangeTimeout(engine.debug.tries);
      } else if response.cmd == CMD_ERROR_RESP {
        ok := false;
        rx := Refuse(device, response, request.cmd != CMD_EXECUTE);
      } else {
        if retryAfterFail {
          policy.ClearFailureStreaks(id);
        }
        rx := UpdateDeviceStatus(id, device, response, request.cmd != CMD_EXECUTE);
        at := rx.at;
        return;
      }
      if retryAfterFail {
        at := ScheduleBackoff(id, engine.debug.sawChallenge);
      } else {
        at := U32(radio.time);
      }
    }

    // ---- Commands

    /** begin_status_poll_tracking_ for a known device. */
    method BeginTracking(id: string, delay: nat) returns (ghost at: nat)
      modifies radio`time, policy
      ensures old(radio.time) <= radio.time && at == radio.time
      ensures policy.tracking == old(policy.tracking)[id := Begun(Entry(old(policy.tracking), id), delay, U32(at))]
    {
      var now := radio.Millis();
      at := radio.time;
      policy.BeginTracking(id, delay, now);
    }

    /** After an answered command: a configured device is polled again even when its reply scheduled
        nothing, and a STOP that did not yet bring the device to rest is followed up within a second. */
    method Settle(id: string, device: IoDevice, followUp: bool, cap: bool, ghost m0: Table, ghost t0: nat)
      returns (ghost done: seq<HubEvent>)
      requires t0 <= radio.time && id in policy.tracking && !(followUp && cap)
      requires NoWrap(radio.time) ==> Rearmed(m0, policy.tracking, id, t0, radio.time)
      requires policy.tracking[id].interval == Entry(m0, id).interval
      modifies radio`time, policy
      ensures old(radio.time) <= radio.time && id in policy.tracking
      ensures Did(old(policy.tracking), policy.tracking, done, radio.time)
      ensures |done| <= 1 && forall i :: 0 <= i < |done| ==> May(done[i], true, followUp, cap && !device.isStopped)
      ensures NoWrap(radio.time) ==> Rearmed(m0, policy.tracking, id, t0, radio.time)
      ensures NoWrap(radio.time) && cap && !device.isStopped ==>
                0 < policy.tracking[id].nextUpdate <= radio.time + 1000
      ensures var interval := Entry(m0, id).interval;
              NoWrap(radio.time + interval) && followUp && interval != 0 ==> policy.tracking[id].nextUpdate != 0
    {
      hide AfterStop, Did, Begun;
      ghost var m := policy.tracking;
      done := [];
      DidNothing(m, radio.time);
      var t := Entry(policy.tracking, id);
      if followUp && t.interval != 0 && t.nextUpdate == 0 {
        ghost var at := BeginTracking(id, t.interval);
        BeginRearms(m, id, t.interval, t0, at);
        BeginSchedules(t, t.interval, at);
        RearmedAgain(m0, m, policy.tracking, id, t0, at);
        done := [Direct(Call.Begin(id, t.interval, U32(at)))];
        DidOne(m, done[0], at);
        return;
      }
      if cap && !device.isStopped {
        var now := radio.Millis();
        CapAfterStop(policy, id, now);
        StopKeepsWindow(m, id, now);
        StopCaps(m, id, radio.time);
        done := [StopAnswered(id, now)];
        DidOne(m, done[0], radio.time);
        WindowKept(m0, m, policy.tracking, id, t0, old(radio.time), radio.time);
      }
    }

    /** What a command does: the exchange is that of `request`; the schedule goes through the events `done`;
        however it ends, the device is left either untracked or with a window opened during the call, and no
        other device's schedule is touched; a failure is counted in the new window; an answer is followed up as
        `followUp` and `cap` ask. */
    twostate predicate Commanded(id: string, device: IoDevice, request: IoFrame, followUp: bool, cap: bool,
                                 ok: bool, rx: Reception, done: seq<HubEvent>)
      reads this, radio, policy, device
    {
      && engine.radio == radio && old(radio.log) <= radio.log && old(radio.time) <= radio.time
      && var o := Seen(request, old(|radio.log|));
      && (ok <==> Answered(o))
      && (o.stage.Finished? || o.requests == X.EXCHANGE_RETRY_COUNT)
      && device.State() == AfterExchange(old(device.State()), request, o, device.supportsTilt, rx)
      && Did(old(policy.tracking), policy.tracking, done, radio.time)
      && (!ok ==> CommandFailed(old(policy.tracking), policy.tracking, id, o.challenges > 0,
                                old(radio.time), radio.time))
      && Asked(done, ok, followUp, cap && !device.isStopped)
      && (NoWrap(radio.time) ==> Rearmed(old(policy.tracking), policy.tracking, id, old(radio.time), radio.time))
      && id in policy.tracking
      && (NoWrap(radio.time) && ok && cap && !device.isStopped ==>
            0 < policy.tracking[id].nextUpdate <= radio.time + 1000)
      && var interval := Entry(old(policy.tracking), id).interval;
      (NoWrap(radio.time + interval) && ok && followUp && interval != 0 ==> policy.tracking[id].nextUpdate != 0)
    }

    /** Nothing is sent and nothing is known of the device any more than before. */
    twostate predicate Untouched(device: IoDevice)
      reads radio, device
    {
      radio.log == old(radio.log) && device.State() == old(device.State())
    }

    /** What the four commands have in common.  `built` is whether the frame could be built; otherwise the
        device is no longer polled. */
    method RunCommand(id: string, device: IoDevice, built: bool, request: IoFrame, followUp: bool, cap: bool)
      returns (ok: bool, ghost rx: Reception, ghost done: seq<HubEvent>)
      requires Valid() && !(followUp && cap) && (built ==> Serializable(request))
      modifies radio`time, radio`interruptions, radio`listens, radio`frequency, radio`log, radio`levels
      modifies engine`debug, policy, device
      ensures built ==> Commanded(id, device, request, followUp, cap, ok, rx, done)
      ensures !built ==> !ok && Untouched(device) &&
                         policy.tracking == old(policy.tracking)[id := Cleared(Entry(old(policy.tracking), id))]
    {
      hide X.Observe, Begun, Failed, AfterReply, AfterExchange, ReplyEvents, Did, Asked, May, Serializable;
      ghost var m0, t0 := policy.tracking, radio.time;
      rx := Reception(NoRadio, 0, 0);
      var interval := Entry(policy.tracking, id).interval;
      ghost var at := BeginTracking(id, interval);
      BeginRearms(m0, id, interval, t0, at);
      ghost var m1, t1 := policy.tracking, radio.time;
      done := [Direct(Call.Begin(id, interval, U32(at)))];
      DidOne(m0, done[0], t1);
      if !built {
        policy.Clear(id);
        ok := false;
        return;
      }
      ok, rx, at := ExecuteRequestAndUpdate(id, device, request, false);
      ghost var m2 := policy.tracking;
      if !ok {
        at := ScheduleBackoff(id, engine.debug.sawChallenge);
        FailKeepsWindow(m2, id, engine.debug.sawChallenge, at);
        WindowKept(m0, m1, policy.tracking, id, t0, t1, radio.time);
        assert FailedAt(m0, policy.tracking, id, engine.debug.sawChallenge, t1, radio.time) by {
          FailStep(m1, id, engine.debug.sawChallenge, at);
        }
        ghost var failed := Direct(Call.Fail(id, engine.debug.sawChallenge, at));
        DidOne(m1, failed, radio.time);
        DidMore(m0, m1, policy.tracking, done, [failed], t1, radio.time);
        AskedFailed(done[0], failed, followUp, cap && !device.isStopped);
        done := done + [failed];
        return;
      }
      ghost var reply := Seen(request, old(|radio.log|)).stage.frame;
      ReplyKeepsWindow(m1, id, reply, device.isStopped, at);
      WindowKept(m0, m1, m2, id, t0, t1, radio.time);
      ghost var t2, replied := radio.time, ReplyEvents(id, reply, device.isStopped, at);
      ReplyDid(m1, id, reply, device.isStopped, at, t2);
      DidMore(m0, m1, m2, done, replied, t1, t2);
      ghost var settled := Settle(id, device, followUp, cap, m0, t0);
      DidMore(m0, m2, policy.tracking, done + replied, settled, t2, radio.time);
      AskedAnswered(done[0], id, reply, device.isStopped, at, settled, followUp, cap && !device.isStopped);
      done := done + replied + settled;
    }

    /** execute_device_command_.  `admitted` is whether the hub is ready, knows the device, and takes the
        command for its type. */
    method ExecuteDeviceCommand(id: string, device: IoDevice, admitted: bool, command: CoverCommand)
      returns (ok: bool, ghost rx: Reception, ghost done: seq<HubEvent>)
      requires Valid()
      modifies radio`time, radio`interruptions, radio`listens, radio`frequency, radio`log, radio`levels
      modifies engine`debug, policy, device
      ensures !admitted ==> !ok && Untouched(device) && policy.tracking == old(policy.tracking)
      ensures admitted ==>
                Commanded(id, device,
                          Request(engine.node, device.nodeId, CMD_EXECUTE, CommandPayload(command, device.inverted)),
                          command != STOP, command == STOP, ok, rx, done)
    {
      hide PositionPayload, SpecialPayload, Request, AfterExchange, Answered, CommandFailed, Rearmed, Did, Step,
           X.Observe, Serializable;
      if !admitted {
        return false, Reception(NoRadio, 0, 0), [];
      }
      var built, request;
      if command == FORCE_OPEN {
        built, request := CreateForceOpen(engine.node, device.nodeId, if device.inverted then 100 else 0);
      } else {
        built, request := CreateExecuteCommand(engine.node, device.nodeId, command);
      }
      RequestSerializes(engine.node, device.nodeId, CMD_EXECUTE, CommandPayload(command, device.inverted));
      ok, rx, done := RunCommand(id, device, built, request, command != STOP, command == STOP);
    }

    /** set_device_position; a stop sent this way is neither followed up nor capped. */
    method SetDevicePosition(id: string, device: IoDevice, admitted: bool, position: byte)
      returns (ok: bool, ghost rx: Reception, ghost done: seq<HubEvent>)
      requires Valid()
      modifies radio`time, radio`interruptions, radio`listens, radio`frequency, radio`log, radio`levels
      modifies engine`debug, policy, device
      ensures !admitted ==> !ok && Untouched(device) && policy.tracking == old(policy.tracking)
      ensures admitted ==>
                Commanded(id, device,
                          Request(engine.node, device.nodeId, CMD_EXECUTE, ExecutePayload(position)),
                          position != POS_STOP, false, ok, rx, done)
    {
      hide ExecutePayload, Request, AfterExchange, Answered, CommandFailed, Rearmed, Did, Step, X.Observe,
           Serializable;
      if !admitted {
        return false, Reception(NoRadio, 0, 0), [];
      }
      var built, request := CreateExecute(engine.node, device.nodeId, position);
      RequestSerializes(engine.node, device.nodeId, CMD_EXECUTE, ExecutePayload(position));
      ok, rx, done := RunCommand(id, device, built, request, position != POS_STOP, false);
    }

    method SetDeviceTilt(id: string, device: IoDevice, admitted: bool, tiltPercent: byte)
      returns (ok: bool, ghost rx: Reception, ghost done: seq<HubEvent>)
      requires Valid()
      modifies radio`time, radio`interruptions, radio`listens, radio`frequency, radio`log, radio`levels
      modifies engine`debug, policy, device
      ensures !admitted ==> !ok && Untouched(device) && policy.tracking == old(policy.tracking)
      ensures admitted ==>
                Commanded(id, device,
                          Request(engine.node, device.nodeId, CMD_EXECUTE, TiltPayload(POS_UNKNOWN, tiltPercent)),
                          true, false, ok, rx, done)
    {
      hide TiltPayload, Request, AfterExchange, Answered, CommandFailed, Rearmed, Did, Step, X.Observe,
           Serializable;
      if !admitted {
        return false, Reception(NoRadio, 0, 0), [];
      }
      var built, request := CreateExecuteTilt(engine.node, device.nodeId, tiltPercent);
      RequestSerializes(engine.node, device.nodeId, CMD_EXECUTE, TiltPayload(POS_UNKNOWN, tiltPercent));
      ok, rx, done := RunCommand(id, device, built, request, true, false);
    }

    /** A position over 100 cannot be combined with a tilt: nothing is sent, and polling ends. */
    method SetDevicePositionAndTilt(id: string, device: IoDevice, admitted: bool, position: byte, tiltPercent: byte)
      returns (ok: bool, ghost rx: Reception, ghost done: seq<HubEvent>)
      requires Valid()
      modifies radio`time, radio`interruptions, radio`listens, radio`frequency, radio`log, radio`levels
      modifies engine`debug, policy, device
      ensures !admitted ==> !ok && Untouched(device) && policy.tracking == old(policy.tracking)
      ensures admitted && position <= 100 ==>
                Commanded(id, device,
                          Request(engine.node, device.nodeId, CMD_EXECUTE, TiltPayload(2 * position, tiltPercent)),
                          true, false, ok, rx, done)
      ensures admitted && position > 100 ==>
                !ok && Untouched(device) &&
                policy.tracking == old(policy.tracking)[id := Cleared(Entry(old(policy.tracking), id))]
    {
      hide TiltPayload, Request, AfterExchange, Answered, CommandFailed, Rearmed, Did, Step, X.Observe,
           Serializable;
      if !admitted {
        return false, Reception(NoRadio, 0, 0), [];
      }
      var built, request := CreateExecutePositionAndTilt(engine.node, device.nodeId, position, tiltPercent);
      RequestSerializes(engine.node, device.nodeId, CMD_EXECUTE, TiltPayload(2 * position, tiltPercent));
      ok, rx, done := RunCommand(id, device, built, request, true, false);
    }

    /** request_device_status: a poll is counted as failed only while the device is tracked. */
    method RequestDeviceStatus(id: string, device: IoDevice, admitted: bool)
      returns (ok: bool, ghost rx: Reception, ghost began: nat, ghost at: nat, ghost done: seq<HubEvent>)
      requires Valid()
      modifies radio`time, radio`interruptions, radio`listens, radio`frequency, radio`log, radio`levels
      modifies engine`debug, policy, device
      ensures !admitted ==> !ok && Untouched(device) && policy.tracking == old(policy.tracking)
      ensures admitted ==> old(radio.log) <= radio.log && old(radio.time) <= began <= radio.time
      ensures admitted ==>
                var request := Request(engine.node, device.nodeId, CMD_PRIVATE, StatusPayload(device.supportsTilt));
                var o := Seen(request, old(|radio.log|));
                var m := old(policy.tracking);
                var tracked := id in m && Active(m[id], U32(began));
                && (ok <==> Answered(o))
                && (o.stage.Finished? || o.requests == X.EXCHANGE_RETRY_COUNT)
                && device.State() == AfterExchange(old(device.State()), request, o, device.supportsTilt, rx)
                && policy.tracking ==
                   (if ok then
                      AfterReply(if tracked then Step(m, Call.ClearStreaks(id)) else m, id, o.stage.frame,
                                 device.isStopped, at)
                    else if tracked then Step(m, Call.Fail(id, o.challenges > 0, at))
                    else m)
                && Did(m, policy.tracking, done, radio.time)
    {
      hide Step, AfterReply, AfterExchange, Request, StatusPayload, ReplyEvents, Did, X.Observe,
           Serializable;
      if !admitted {
        return false, Reception(NoRadio, 0, 0), 0, 0, [];
      }
      var built, request := CreateGetStatus(engine.node, device.nodeId, device.supportsTilt);
      var now := radio.Millis();
      began := radio.time;
      var tracked := policy.IsTrackingActive(id, now);
      ghost var m := policy.tracking;
      RequestSerializes(engine.node, device.nodeId, CMD_PRIVATE, StatusPayload(device.supportsTilt));
      ok, rx, at := ExecuteRequestAndUpdate(id, device, request, tracked);
      done := [];
      DidNothing(m, radio.time);
      if ok {
        ghost var m1 := m;
        if tracked {
          m1, done := Step(m, Call.ClearStreaks(id)), [Direct(Call.ClearStreaks(id))];
          DidOne(m, done[0], radio.time);
        }
        ghost var reply := Seen(request, old(|radio.log|)).stage.frame;
        ReplyDid(m1, id, reply, device.isStopped, at, radio.time);
        DidMore(m, m1, policy.tracking, done, ReplyEvents(id, reply, device.isStopped, at), radio.time, radio.time);
        done := done + ReplyEvents(id, reply, device.isStopped, at);
      } else if tracked {
        done := [Direct(Call.Fail(id, engine.debug.sawChallenge, at))];
        DidOne(m, done[0], radio.time);
      }
    }
  }

  // ---- Events

  /** The events of a reply. */
  function ReplyEvents(id: string, f: IoFrame, stopped: bool, now: nat): seq<HubEvent> {
    if !IsStatus(f) then []
    else if f.cmd == CMD_PRIVATE_RESP then [Response(id, Payload(f), stopped, now)]
    else [Update(id, stopped, now)]
  }

  /** What may happen to the schedule once a command has opened the window: a failure is counted; an answer has its
      own effect, and opens a second window or caps the next poll only when that is asked for. */
  predicate May(h: HubEvent, ok: bool, followUp: bool, cap: bool) {
    match h
    case Direct(e) => if e.Begin? then ok && followUp else e.Fail? && !ok
    case StopAnswered(_, _) => ok && cap
    case _ => ok
  }

  /** A command opens a window first; at most two more effects follow, and only one after a failure. */
  ghost predicate Asked(done: seq<HubEvent>, ok: bool, followUp: bool, cap: bool) {
    && 1 <= |done| <= (if ok then 3 else 2) && done[0].Direct? && done[0].call.Begin?
    && forall i :: 1 <= i < |done| ==> May(done[i], ok, followUp, cap)
  }

  lemma AskedFailed(begin: HubEvent, fail: HubEvent, followUp: bool, cap: bool)
    requires begin.Direct? && begin.call.Begin? && fail.Direct? && fail.call.Fail?
    ensures Asked([begin] + [fail], false, followUp, cap)
  {
  }

  lemma AskedAnswered(begin: HubEvent, id: string, f: IoFrame, stopped: bool, now: nat, settled: seq<HubEvent>,
                      followUp: bool, cap: bool)
    requires begin.Direct? && begin.call.Begin? && |settled| <= 1
    requires forall i :: 0 <= i < |settled| ==> May(settled[i], true, followUp, cap)
    ensures Asked([begin] + ReplyEvents(id, f, stopped, now) + settled, true, followUp, cap)
  {
    hide IsStatus, Payload;
  }

  /** The schedule went through these events, which are possible in any state as long as the counter does not
      wrap. */
  ghost predicate Did(m: Table, m': Table, done: seq<HubEvent>, to: nat) {
    m' == Following(m, done) && (NoWrap(to) ==> forall i :: 0 <= i < |done| ==> Calm(done[i]))
  }

  lemma DidNothing(m: Table, to: nat)
    ensures Did(m, m, [], to)
  {
  }

  lemma DidOne(m: Table, h: HubEvent, to: nat)
    requires h.Direct? ==> !h.call.Pop? && (h.call.Begin? ==> h.call.now <= to)
    ensures Did(m, HubStep(m, h), [h], to)
  {
    hide HubStep;
    assert Following(m, [h]) == HubStep(m, h);
  }

  lemma DidMore(m: Table, m1: Table, m2: Table, done: seq<HubEvent>, more: seq<HubEvent>, mid: nat, to: nat)
    requires Did(m, m1, done, mid) && Did(m1, m2, more, to) && mid <= to
    ensures Did(m, m2, done + more, to)
  {
    hide Following, Calm;
    FollowingSum(m, done, more);
  }

  lemma ReplyDid(m: Table, id: string, f: IoFrame, stopped: bool, now: nat, to: nat)
    ensures Did(m, AfterReply(m, id, f, stopped, now), ReplyEvents(id, f, stopped, now), to)
  {
    hide Did, AfterPrivateResponse, AfterUnsolicitedUpdate;
    DidNothing(m, to);
    DidOne(m, Response(id, Payload(f), stopped, now), to);
    DidOne(m, Update(id, stopped, now), to);
  }

  /** So every command and every poll takes a run of the hub to a run of the hub, to which BoundedPolling applies. */
  lemma RunGoesOn(hs: seq<HubEvent>, m': Table, done: seq<HubEvent>, to: nat)
    requires IsHubRun(hs) && Did(HubAfter(hs), m', done, to) && NoWrap(to)
    ensures IsHubRun(hs + done) && HubAfter(hs + done) == m'
  {
    hide IsHubRun, HubAfter, Following, Calm;
    RunExtends(hs, done);
  }

  /** The device's window was begun and the command's failure recorded, at these times. */
  ghost predicate FailedAt(m: Table, m': Table, id: string, authLike: bool, from: nat, at: nat) {
    m' == m[id := Failed(Begun(Entry(m, id), Entry(m, id).interval, U32(from)), authLike, U32(at))]
  }

  /** Both at some time during the call. */
  ghost predicate CommandFailed(m: Table, m': Table, id: string, authLike: bool, from: nat, to: nat) {
    exists begun, failed ::
      from <= begun && begun <= failed && failed <= to && FailedAt(m, m', id, authLike, begun, failed)
  }

  lemma FailStep(m: Table, id: string, authLike: bool, at: nat)
    requires id in m
    ensures Step(m, Call.Fail(id, authLike, at)) == m[id := Failed(m[id], authLike, at)]
  {
  }

  // ---- Windows

  /** Ten minutes from then the counter has not wrapped. */
  predicate NoWrap(t: nat) {
    t + MAX_TRACKED_STATUS_POLL_WINDOW_MS < WRAP
  }

  /** Only this device's entry changed; it keeps its interval, and is untracked or has a window that was
      opened between the two times. */
  ghost predicate Rearmed(m: Table, m': Table, id: string, from: nat, to: nat) {
    && m'.Keys == m.Keys + {id}
    && (forall k :: k in m && k != id ==> m'[k] == m[k])
    && m'[id].interval == Entry(m, id).interval
    && (m'[id].deadline == 0
        || from + MAX_TRACKED_STATUS_POLL_WINDOW_MS <= m'[id].deadline <= to + MAX_TRACKED_STATUS_POLL_WINDOW_MS)
  }

  /** Only this device's entry changed, and its window is the same or closed. */
  ghost predicate KeepsWindow(m: Table, m': Table, id: string) {
    && id in m && m'.Keys == m.Keys
    && (forall k :: k in m && k != id ==> m'[k] == m[k])
    && m'[id].interval == m[id].interval
    && (m'[id].deadline == 0 || m'[id].deadline == m[id].deadline)
  }

  lemma BeginRearms(m: Table, id: string, delay: nat, from: nat, at: nat)
    requires from <= at
    ensures var m' := m[id := Begun(Entry(m, id), delay, U32(at))];
            m'[id].interval == Entry(m, id).interval && (NoWrap(at) ==> Rearmed(m, m', id, from, at))
  {
  }

  lemma BeginSchedules(t: Tracking, delay: nat, at: nat)
    requires delay != 0
    ensures NoWrap(at + delay) ==> Begun(t, delay, U32(at)).nextUpdate != 0
  {
  }

  lemma WindowKept(m0: Table, m: Table, m': Table, id: string, from: nat, mid: nat, to: nat)
    requires KeepsWindow(m, m', id) && mid <= to
    ensures NoWrap(mid) && Rearmed(m0, m, id, from, mid) ==> Rearmed(m0, m', id, from, to)
  {
  }

  lemma RearmedAgain(m0: Table, m: Table, m': Table, id: string, from: nat, to: nat)
    ensures Rearmed(m0, m, id, from, to) && Rearmed(m, m', id, from, to) ==> Rearmed(m0, m', id, from, to)
  {
  }

  lemma FailKeepsWindow(m: Table, id: string, authLike: bool, at: nat)
    requires id in m
    ensures KeepsWindow(m, Step(m, Call.Fail(id, authLike, at)), id)
  {
    hide RetryDelay, U32;
  }

  lemma ReplyKeepsWindow(m: Table, id: string, f: IoFrame, stopped: bool, at: nat)
    requires id in m
    ensures KeepsWindow(m, AfterReply(m, id, f, stopped, at), id)
  {
    hide SettleDelay, HintDelay, U32, Payload;
  }

  lemma StopKeepsWindow(m: Table, id: string, now: nat)
    requires id in m
    ensures KeepsWindow(m, AfterStop(m, id, now), id)
  {
  }

  /** StopCapsPoll in real time. */
  lemma StopCaps(m: Table, id: string, time: nat)
    requires id in m
    ensures NoWrap(time) ==>
              var m' := AfterStop(m, id, U32(time));
              id in m' && 0 < m'[id].nextUpdate <= time + STOP_SETTLE_POLL_CAP_MS
  {
    if NoWrap(time) {
      StopCapsPoll(m, id, time);
    }
  }
}
