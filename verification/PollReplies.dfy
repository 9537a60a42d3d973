/** How replies and commands re-arm or stop the polling of a device (hub_status.cpp, hub_operations.cpp): what
    each leaves in the device record, and which single call on the schedule it makes. */
module PollReplies {
  import opened Bytes
  import opened Clock
  import opened Device
  import opened Frame
  import opened Motion
  import opened PollPolicy
  import Runs = PollRuns

  const HINT_OFFSET: nat := 7
  const HINT_UNUSED: byte := 0xFF
  const HINT_ZERO: byte := 0x00

  /** The follow-up delay a private response asks for, 0 when it names none. */
  function HintDelay(data: seq<byte>): nat {
    if |data| > HINT_OFFSET && data[HINT_OFFSET] != HINT_UNUSED && data[HINT_OFFSET] != HINT_ZERO
    then data[HINT_OFFSET] as nat * 1000 + 1000 else 0
  }

  /** A device at rest, or whose window has closed, is no longer polled. */
  predicate Rests(m: Table, id: string, stopped: bool, now: nat) {
    stopped || id !in m || !Active(m[id], now)
  }

  // ---- The calls on the schedule

  /** The call that a private response makes. */
  function ResponseCall(m: Table, id: string, data: seq<byte>, stopped: bool, now: nat): Call {
    if Rests(m, id, stopped, now) then Call.Clear(id)
    else
      var proposed := U32(now + SettleDelay(m[id].interval, HintDelay(data), false));
      var existing := m[id].nextUpdate;
      Call.SetNext(id, if existing != 0 && existing < proposed then existing else proposed)
  }

  function AfterPrivateResponse(m: Table, id: string, data: seq<byte>, stopped: bool, now: nat): Table {
    Step(m, ResponseCall(m, id, data, stopped, now))
  }

  /** The call that an unsolicited status update makes. */
  function UpdateCall(m: Table, id: string, stopped: bool, now: nat): Call {
    if Rests(m, id, stopped, now) then Call.Clear(id)
    else Call.SetNext(id, U32(now + SettleDelay(m[id].interval, 0, false)))
  }

  function AfterUnsolicitedUpdate(m: Table, id: string, stopped: bool, now: nat): Table {
    Step(m, UpdateCall(m, id, stopped, now))
  }

  /** The call after a STOP was answered by a device still moving; it may leave the schedule as it is. */
  function StopCall(m: Table, id: string, now: nat): Call {
    var cap := U32(now + STOP_SETTLE_POLL_CAP_MS);
    var existing := Entry(m, id).nextUpdate;
    Call.SetNext(id, if existing == 0 || cap < existing then cap else existing)
  }

  function AfterStop(m: Table, id: string, now: nat): Table {
    Step(m, StopCall(m, id, now))
  }

  // ---- The operations

  /** The follow-up timer of a private response, whose byte may be missing. */
  method ResponseHint(f: IoFrame) returns (hint: nat)
    ensures hint == HintDelay(Payload(f))
  {
    hint := 0;
    if f.dataLen > HINT_OFFSET && f.data[HINT_OFFSET] != HINT_UNUSED && f.data[HINT_OFFSET] != HINT_ZERO {
      hint := f.data[HINT_OFFSET] as nat * 1000 + 1000;
    }
  }

  /** apply_private_response_status: the flag is taken from the frame, the positions only when they are trusted. */
  method ApplyPrivateResponse(policy: StatusPollPolicy, id: string, device: IoDevice, f: IoFrame, trust: bool,
                              now: nat)
    modifies policy, device
    ensures device.State() == PrivateReported(old(device.State()), f, trust, device.supportsTilt, now)
    ensures policy.tracking ==
            AfterPrivateResponse(old(policy.tracking), id, Payload(f), device.isStopped, now)
  {
    hide PrivateReported, HintDelay, Payload, Step;
    device.ReportPrivate(f, trust, now);
    if device.isStopped || !policy.IsTrackingActive(id, now) {
      policy.Clear(id);
      return;
    }
    var t := Entry(policy.tracking, id);
    var hint := ResponseHint(f);
    var delay := SettleDelay(t.interval, hint, false);
    var proposed := U32(now + delay);
    var existing := t.nextUpdate;
    policy.SetNextUpdate(id, if existing != 0 && existing < proposed then existing else proposed);
  }

  /** apply_unsolicited_status_update. */
  method ApplyUnsolicitedUpdate(policy: StatusPollPolicy, id: string, device: IoDevice, f: IoFrame, now: nat)
    modifies policy, device
    ensures device.State() == UpdateReported(old(device.State()), f, now)
    ensures policy.tracking == AfterUnsolicitedUpdate(old(policy.tracking), id, device.isStopped, now)
  {
    hide UpdateReported, Step;
    device.ReportUpdate(f, now);
    if device.isStopped || !policy.IsTrackingActive(id, now) {
      policy.Clear(id);
      return;
    }
    var t := Entry(policy.tracking, id);
    policy.SetNextUpdate(id, U32(now + SettleDelay(t.interval, 0, false)));
  }

  /** After a STOP was answered by a device still moving. */
  method CapAfterStop(policy: StatusPollPolicy, id: string, now: nat)
    modifies policy
    ensures policy.tracking == AfterStop(old(policy.tracking), id, now)
  {
    var cap := U32(now + STOP_SETTLE_POLL_CAP_MS);
    var existing := Entry(policy.tracking, id).nextUpdate;
    if existing == 0 || cap < existing {
      policy.SetNextUpdate(id, cap);
    }
  }

  // ---- What they do to the schedule

  /** Two tables differ at most in the schedule of one device. */
  ghost predicate OnlyReschedules(m: Table, m': Table, id: string) {
    && m'.Keys == m.Keys && id in m
    && (forall k :: k in m && k != id ==> m'[k] == m[k])
    && m'[id] == m[id].(nextUpdate := m'[id].nextUpdate)
  }

  /** How long a device without a hint is left alone: its interval, or three seconds. */
  function Patience(t: Tracking): nat {
    if t.interval != 0 then t.interval else 3000
  }

  /** The window is closed or over. */
  predicate Over(t: Tracking, now: nat) {
    t.deadline == 0 || now > t.deadline
  }

  /** A private response clears a device that rests or whose window is over.  Otherwise the next poll is due after
      its patience, or one second after the hint of byte 7 when that is sooner, unless it is due sooner already. */
  lemma PrivateResponseExact(m: Table, id: string, data: seq<byte>, stopped: bool, now: nat)
    requires id in m && now + Patience(m[id]) < 0x1_0000_0000
    ensures var t := m[id];
            var hinted := |data| > 7 && data[7] != 0x00 && data[7] != 0xFF && (data[7] as nat + 1) * 1000 < Patience(t);
            var due := now + if hinted then (data[7] as nat + 1) * 1000 else Patience(t);
            AfterPrivateResponse(m, id, data, stopped, now) ==
            m[id := if stopped || Over(t, now) then Tracking(t.interval, 0, 0, 0, 0)
                    else t.(nextUpdate := if 0 < t.nextUpdate < due then t.nextUpdate else due)]
  {
  }

  /** A status update the device sends on its own clears it in the same cases, and otherwise the next poll is due
      after its patience, whatever was scheduled before. */
  lemma UpdateExact(m: Table, id: string, stopped: bool, now: nat)
    requires id in m && now + Patience(m[id]) < 0x1_0000_0000
    ensures AfterUnsolicitedUpdate(m, id, stopped, now) ==
            m[id := if stopped || Over(m[id], now) then Tracking(m[id].interval, 0, 0, 0, 0)
                    else m[id].(nextUpdate := now + Patience(m[id]))]
  {
  }

  /** So a moving device is handed out again: at every time after that and within its window it is ready. */
  lemma UpdatePollsAgain(m: Table, id: string, now: nat, later: nat)
    requires id in m && !Over(m[id], now) && now + Patience(m[id]) < 0x1_0000_0000
    requires now + Patience(m[id]) < later <= m[id].deadline
    ensures Ready(AfterUnsolicitedUpdate(m, id, false, now), id, later)
  {
    UpdateExact(m, id, false, now);
  }

  /** The same after a private response. */
  lemma ResponsePollsAgain(m: Table, id: string, data: seq<byte>, now: nat, later: nat)
    requires id in m && !Over(m[id], now) && now + Patience(m[id]) < 0x1_0000_0000
    requires now + Patience(m[id]) < later <= m[id].deadline
    ensures Ready(AfterPrivateResponse(m, id, data, false, now), id, later)
  {
    PrivateResponseExact(m, id, data, false, now);
  }

  /** A device named in no schedule yet is left alone by every reply. */
  lemma UnknownStays(m: Table, id: string, data: seq<byte>, stopped: bool, now: nat)
    requires id !in m
    ensures AfterPrivateResponse(m, id, data, stopped, now) == m == AfterUnsolicitedUpdate(m, id, stopped, now)
  {
  }

  /** A private response only ever moves the next poll earlier, and leaves one due within the settle
      delay exactly when the device is tracked and moving. */
  lemma PrivateResponseReschedules(m: Table, id: string, data: seq<byte>, stopped: bool, now: nat)
    requires id in m && now + SettleDelay(m[id].interval, HintDelay(data), false) < 0x1_0000_0000
    ensures var m' := AfterPrivateResponse(m, id, data, stopped, now);
            if Rests(m, id, stopped, now) then m' == m[id := Cleared(m[id])]
            else
              && OnlyReschedules(m, m', id)
              && 0 < m'[id].nextUpdate <= now + SettleDelay(m[id].interval, HintDelay(data), false)
              && (m[id].nextUpdate != 0 ==> m'[id].nextUpdate <= m[id].nextUpdate)
              && (HintDelay(data) != 0 ==> m'[id].nextUpdate <= now + HintDelay(data))
  {
  }

  /** However often a command is answered again before its poll is handed out, the wait does not add up:
      the poll stays due by the time the first answer set. */
  lemma {:induction false} RepliesDoNotCompound(m: Table, id: string, replies: seq<(seq<byte>, nat)>, due: nat)
    requires id in m && 0 < m[id].nextUpdate <= due
    requires forall r :: r in replies ==>
               r.1 + SettleDelay(m[id].interval, HintDelay(r.0), false) < 0x1_0000_0000 && Active(m[id], r.1)
    ensures var m' := AfterReplies(m, id, replies); OnlyReschedules(m, m', id) && 0 < m'[id].nextUpdate <= due
    decreases |replies|
  {
    if replies != [] {
      var n := |replies| - 1;
      RepliesDoNotCompound(m, id, replies[..n], due);
      assert replies[n] in replies;
      var m1 := AfterReplies(m, id, replies[..n]);
      PrivateResponseReschedules(m1, id, replies[n].0, false, replies[n].1);
    }
  }

  /** The table after private responses of a device that keeps moving. */
  function AfterReplies(m: Table, id: string, replies: seq<(seq<byte>, nat)>): Table {
    if replies == [] then m
    else
      var n := |replies| - 1;
      AfterPrivateResponse(AfterReplies(m, id, replies[..n]), id, replies[n].0, false, replies[n].1)
  }

  /** After a STOP that left the device moving the next poll is due within a second, and not later than before. */
  lemma StopCapsPoll(m: Table, id: string, now: nat)
    requires id in m && now + 1000 < 0x1_0000_0000
    ensures AfterStop(m, id, now) ==
            m[id := m[id].(nextUpdate := if 0 < m[id].nextUpdate <= now + 1000 then m[id].nextUpdate else now + 1000)]
  {
  }

  // ---- Runs of the hub

  /** What reaches the schedule in the hub: a direct call, or one of the three operations above. */
  datatype HubEvent =
    | Direct(call: Call)
    | Response(id: string, data: seq<byte>, stopped: bool, now: nat)
    | Update(id: string, stopped: bool, now: nat)
    | StopAnswered(id: string, now: nat)

  function CallOf(m: Table, h: HubEvent): Call {
    match h
    case Direct(e) => e
    case Response(id, data, stopped, now) => ResponseCall(m, id, data, stopped, now)
    case Update(id, stopped, now) => UpdateCall(m, id, stopped, now)
    case StopAnswered(id, now) => StopCall(m, id, now)
  }

  /** The table after an event, as the contracts of the three operations state it. */
  function HubStep(m: Table, h: HubEvent): Table {
    match h
    case Direct(e) => Step(m, e)
    case Response(id, data, stopped, now) => AfterPrivateResponse(m, id, data, stopped, now)
    case Update(id, stopped, now) => AfterUnsolicitedUpdate(m, id, stopped, now)
    case StopAnswered(id, now) => AfterStop(m, id, now)
  }

  /** The table after some events. */
  function Following(m: Table, hs: seq<HubEvent>): Table {
    if hs == [] then m else HubStep(Following(m, hs[..|hs| - 1]), hs[|hs| - 1])
  }

  function HubAfter(hs: seq<HubEvent>): Table {
    Following(map[], hs)
  }

  ghost predicate IsHubRun(hs: seq<HubEvent>) {
    hs == [] ||
    (IsHubRun(hs[..|hs| - 1]) && (hs[|hs| - 1].Direct? ==> Runs.Possible(HubAfter(hs[..|hs| - 1]), hs[|hs| - 1].call)))
  }

  /** When the device's tracking was last begun. */
  function LastBegin(hs: seq<HubEvent>, id: string): Runs.Time {
    if hs == [] then Runs.Never
    else
      var n := |hs| - 1;
      if hs[n].Direct? && hs[n].call.Begin? && hs[n].call.id == id then Runs.At(hs[n].call.now)
      else LastBegin(hs[..n], id)
  }

  /** The calls a run makes. */
  function Calls(hs: seq<HubEvent>): (es: seq<Call>)
    ensures |es| == |hs|
  {
    if hs == [] then []
    else
      var n := |hs| - 1;
      Calls(hs[..n]) + [CallOf(HubAfter(hs[..n]), hs[n])]
  }

  /** Every run of the hub is a run of the schedule: replies only ever clear or reschedule. */
  lemma {:induction false} HubRunIsRun(hs: seq<HubEvent>, id: string)
    ensures Runs.After(Calls(hs)) == HubAfter(hs)
    ensures IsHubRun(hs) ==> Runs.IsRun(Calls(hs))
    ensures Runs.LastBegin(Calls(hs), id) == LastBegin(hs, id)
  {
    hide Step, ResponseCall, UpdateCall, StopCall;
    if hs != [] {
      var n := |hs| - 1;
      HubRunIsRun(hs[..n], id);
      var m := HubAfter(hs[..n]);
      assert Calls(hs)[..n] == Calls(hs[..n]) && Calls(hs)[n] == CallOf(m, hs[n]);
      OnlyReschedulesOrClears(m, hs[n]);
    }
  }

  lemma OnlyReschedulesOrClears(m: Table, h: HubEvent)
    ensures HubStep(m, h) == Step(m, CallOf(m, h))
    ensures !h.Direct? ==> CallOf(m, h).Clear? || CallOf(m, h).SetNext?
    ensures h.Direct? ==> CallOf(m, h) == h.call
  {
    hide Step;
  }

  /** In a run of the hub nothing hands a device out later than ten minutes after its last begin_tracking,
      whatever replies and commands re-arm it. */
  lemma BoundedPolling(hs: seq<HubEvent>, now: nat, id: string)
    requires IsHubRun(hs) && FirstReady(HubAfter(hs), now, Some(id))
    ensures LastBegin(hs, id).At? && now <= LastBegin(hs, id).ms + 600000
  {
    HubRunIsRun(hs, id);
    Runs.BoundedPolling(Calls(hs), now, id);
  }

  /** An event that is possible in every state: no pop, and a window that ends before the counter wraps. */
  predicate Calm(h: HubEvent) {
    h.Direct? ==> !h.call.Pop? && (h.call.Begin? ==> h.call.now + MAX_TRACKED_STATUS_POLL_WINDOW_MS < 0x1_0000_0000)
  }

  /** Events that follow events. */
  lemma {:induction false} FollowingSum(m: Table, hs: seq<HubEvent>, more: seq<HubEvent>)
    ensures Following(m, hs + more) == Following(Following(m, hs), more)
    decreases |more|
  {
    hide HubStep;
    if more == [] {
      assert hs + more == hs;
    } else {
      var n := |more| - 1;
      FollowingSum(m, hs, more[..n]);
      assert (hs + more)[..|hs| + n] == hs + more[..n] && (hs + more)[|hs| + n] == more[n];
    }
  }

  /** An operation whose events are calm takes a run of the hub to a run of the hub. */
  lemma {:induction false} RunExtends(hs: seq<HubEvent>, more: seq<HubEvent>)
    requires IsHubRun(hs) && forall i :: 0 <= i < |more| ==> Calm(more[i])
    ensures IsHubRun(hs + more) && HubAfter(hs + more) == Following(HubAfter(hs), more)
    decreases |more|
  {
    hide Following;
    FollowingSum(map[], hs, more);
    if more == [] {
      assert hs + more == hs;
    } else {
      var n := |more| - 1;
      RunExtends(hs, more[..n]);
      assert (hs + more)[..|hs| + n] == hs + more[..n] && (hs + more)[|hs| + n] == more[n];
    }
  }
}
